/**
 * The string operations of Rust's `str` that the log processor relies on:
 * `split_once`, `lines`, `split`, `trim_end`, and the joining of lines that
 * the output buffers perform with `push_str`.
 */
module Text {
  import opened Wrappers

  /** Position of the first `c` in `s`, if any. */
  function IndexOf(s: string, c: char): (r: Option<nat>)
    ensures r.Some? ==> r.value < |s| && s[r.value] == c && c !in s[..r.value]
    ensures r.None? ==> c !in s
  {
    if s == [] then None
    else if s[0] == c then Some(0)
    else
      match IndexOf(s[1..], c)
      case None => None
      case Some(k) =>
        assert s[..k + 1] == [s[0]] + s[1..][..k];
        Some(k + 1)
  }

  /** `s.split_once(c)`: the text before and after the first `c`. */
  function SplitOnce(s: string, c: char): (r: Option<(string, string)>)
    ensures r.None? <==> c !in s
    ensures r.Some? ==> c !in r.value.0 && s == r.value.0 + [c] + r.value.1
  {
    match IndexOf(s, c)
    case None => None
    case Some(k) =>
      assert s == s[..k] + [c] + s[k + 1..];
      Some((s[..k], s[k + 1..]))
  }

  /** `parts` joined with `sep` between consecutive elements. */
  function Join(parts: seq<string>, sep: string): string
  {
    if |parts| == 0 then []
    else if |parts| == 1 then parts[0]
    else parts[0] + sep + Join(parts[1..], sep)
  }

  /** Every element of `parts` followed by a newline: what repeated `push_str(line + "\n")` builds. */
  function Terminated(parts: seq<string>): string
  {
    if parts == [] then [] else parts[0] + "\n" + Terminated(parts[1..])
  }

  /** `s.split(c)`: the pieces between occurrences of `c`; never empty. */
  function Split(s: string, c: char): (fields: seq<string>)
    ensures |fields| >= 1
    ensures forall i :: 0 <= i < |fields| ==> c !in fields[i]
    decreases |s|
  {
    match IndexOf(s, c)
    case None => [s]
    case Some(k) => [s[..k]] + Split(s[k + 1..], c)
  }

  /** Splitting a text that starts with a field and a separator: that field, then the split of the rest. */
  lemma SplitCons(pre: string, c: char, post: string)
    requires c !in pre
    ensures Split(pre + [c] + post, c) == [pre] + Split(post, c)
  {
    IndexOfAfter(pre, c, post);
    var s := pre + [c] + post;
    assert s[..|pre|] == pre && s[|pre| + 1..] == post;
  }

  /**
   * `s.lines()` for text whose line ends are plain `\n`: the pieces between
   * newlines, where a final newline does not start an empty last line and the
   * empty text has no lines.
   */
  function Lines(s: string): (lines: seq<string>)
    ensures forall i :: 0 <= i < |lines| ==> '\n' !in lines[i]
    decreases |s|
  {
    if s == [] then []
    else
      match IndexOf(s, '\n')
      case None => [s]
      case Some(k) => [s[..k]] + Lines(s[k + 1..])
  }

  /** Rust's `char::is_whitespace`: the Unicode White_Space property. */
  predicate IsWhitespace(c: char)
  {
    var n := c as int;
    (0x09 <= n <= 0x0D) || n == 0x20 || n == 0x85 || n == 0xA0 || n == 0x1680
    || (0x2000 <= n <= 0x200A) || n == 0x2028 || n == 0x2029 || n == 0x202F
    || n == 0x205F || n == 0x3000
  }

  /** Among ASCII characters the whitespace is the space, tab, line feed, vertical tab, form feed and carriage return. */
  lemma AsciiWhitespace(c: char)
    requires c as int < 0x80
    ensures IsWhitespace(c) <==> c == ' ' || '\t' <= c <= '\r'
  {
  }

  /** `s.trim_end()`: the longest prefix of `s` that does not end in whitespace. */
  function TrimEnd(s: string): (t: string)
    ensures t <= s
    ensures t == [] || !IsWhitespace(t[|t| - 1])
    ensures forall i :: |t| <= i < |s| ==> IsWhitespace(s[i])
  {
    if s != [] && IsWhitespace(s[|s| - 1]) then TrimEnd(s[..|s| - 1]) else s
  }

  /** Two parts joined: the first, the separator, the second. */
  lemma JoinTwo(a: string, b: string, sep: string)
    ensures Join([a, b], sep) == a + sep + b
  {
    assert [a, b][1..] == [b];
  }

  /** Splitting at `c` and joining with `c` gives the text back. */
  lemma {:induction false} JoinSplit(s: string, c: char)
    ensures Join(Split(s, c), [c]) == s
    decreases |s|
  {
    match IndexOf(s, c)
    case None =>
    case Some(k) =>
      JoinSplit(s[k + 1..], c);
      JoinSplitStep(s, c, k);
  }

  /** The inductive step of `JoinSplit`: the first field, then the rest of the text. */
  lemma JoinSplitStep(s: string, c: char, k: nat)
    requires IndexOf(s, c) == Some(k)
    requires Join(Split(s[k + 1..], c), [c]) == s[k + 1..]
    ensures Join(Split(s, c), [c]) == s
  {
    var fields := Split(s, c);
    assert fields == [s[..k]] + Split(s[k + 1..], c);
    assert fields[1..] == Split(s[k + 1..], c);
    assert Join(fields, [c]) == s[..k] + [c] + s[k + 1..];
    assert s == s[..k] + [c] + s[k + 1..];
  }

  /** Joining pieces free of `c` with `c` and splitting at `c` gives the pieces back. */
  lemma {:induction false} SplitJoin(parts: seq<string>, c: char)
    requires |parts| >= 1
    requires forall i :: 0 <= i < |parts| ==> c !in parts[i]
    ensures Split(Join(parts, [c]), c) == parts
  {
    var s := Join(parts, [c]);
    if |parts| == 1 {
      assert IndexOf(s, c).None?;
    } else {
      var rest := Join(parts[1..], [c]);
      assert s == parts[0] + [c] + rest;
      IndexOfAfter(parts[0], c, rest);
      assert s[..|parts[0]|] == parts[0];
      assert s[|parts[0]| + 1..] == rest;
      SplitJoin(parts[1..], c);
    }
  }

  /** In `pre + [c] + post` with no `c` in `pre`, the first `c` is right after `pre`. */
  lemma IndexOfAfter(pre: string, c: char, post: string)
    requires c !in pre
    ensures IndexOf(pre + [c] + post, c) == Some(|pre|)
  {
    var s := pre + [c] + post;
    assert s[|pre|] == c;
    assert forall i :: 0 <= i < |pre| ==> s[i] == pre[i];
    assert s[..|pre|] == pre;
  }

  /** Splitting a newline-terminated list of newline-free lines gives those lines back. */
  lemma {:induction false} LinesTerminated(parts: seq<string>)
    requires forall i :: 0 <= i < |parts| ==> '\n' !in parts[i]
    ensures Lines(Terminated(parts)) == parts
  {
    if parts != [] {
      var rest := Terminated(parts[1..]);
      assert Terminated(parts) == parts[0] + "\n" + rest;
      IndexOfAfter(parts[0], '\n', rest);
      var s := Terminated(parts);
      assert s[..|parts[0]|] == parts[0];
      assert s[|parts[0]| + 1..] == rest;
      LinesTerminated(parts[1..]);
    }
  }

  /** `s` with a newline added at its end unless it is empty or already ends in one. */
  function EndWithNewline(s: string): (t: string)
    ensures s <= t && |t| <= |s| + 1
    ensures t != [] ==> t[|t| - 1] == '\n'
  {
    if s == [] || s[|s| - 1] == '\n' then s else s + "\n"
  }

  /**
   * `lines()` loses nothing but an optional final newline: writing its lines
   * back, each followed by a newline, gives the text with a newline ensured at
   * its end.
   */
  lemma {:induction false} TerminatedLines(s: string)
    ensures Terminated(Lines(s)) == EndWithNewline(s)
    decreases |s|
  {
    if s != [] {
      match IndexOf(s, '\n')
      case None =>
        assert s[|s| - 1] != '\n';
      case Some(k) =>
        TerminatedLines(s[k + 1..]);
        TerminatedLinesStep(s, k);
    }
  }

  /** The inductive step of `TerminatedLines`: one line, then the rest of the text. */
  lemma TerminatedLinesStep(s: string, k: nat)
    requires IndexOf(s, '\n') == Some(k)
    requires Terminated(Lines(s[k + 1..])) == EndWithNewline(s[k + 1..])
    ensures Terminated(Lines(s)) == EndWithNewline(s)
  {
    var head, rest := s[..k + 1], s[k + 1..];
    TerminatedFirstLine(s, k);
    assert s == head + rest;
    EndWithNewlineAppend(head, rest);
  }

  /** `lines()` takes the text before the first newline as its first line. */
  lemma TerminatedFirstLine(s: string, k: nat)
    requires IndexOf(s, '\n') == Some(k)
    ensures Terminated(Lines(s)) == s[..k + 1] + Terminated(Lines(s[k + 1..]))
  {
    var lines := Lines(s);
    assert lines == [s[..k]] + Lines(s[k + 1..]);
    assert lines[1..] == Lines(s[k + 1..]);
    assert s[..k + 1] == s[..k] + "\n";
  }

  /** Text that already ends in a newline is left alone by `EndWithNewline`. */
  lemma EndWithNewlineAppend(head: string, rest: string)
    requires head != [] && head[|head| - 1] == '\n'
    ensures head + EndWithNewline(rest) == EndWithNewline(head + rest)
  {
    var s := head + rest;
    if rest != [] {
      assert s[|s| - 1] == rest[|rest| - 1];
      if rest[|rest| - 1] != '\n' {
        assert head + (rest + "\n") == s + "\n";
      }
    }
  }

  /** A non-empty list of lines, each followed by a newline, is their join plus one newline. */
  lemma {:induction false} TerminatedJoin(parts: seq<string>)
    requires parts != []
    ensures Terminated(parts) == Join(parts, "\n") + "\n"
  {
    if |parts| > 1 {
      TerminatedJoin(parts[1..]);
    }
  }

  /** Appending one line to the terminated text. */
  lemma {:induction false} TerminatedSnoc(parts: seq<string>, line: string)
    ensures Terminated(parts + [line]) == Terminated(parts) + line + "\n"
  {
    if parts != [] {
      assert (parts + [line])[1..] == parts[1..] + [line];
      TerminatedSnoc(parts[1..], line);
    } else {
      assert [line][1..] == [];
    }
  }

  /**
   * `trim_end` on a buffer of terminated lines whose last line ends in a
   * non-space character removes exactly the final newline.
   */
  lemma TrimTerminated(parts: seq<string>)
    requires parts != [] && parts[|parts| - 1] != []
    requires !IsWhitespace(parts[|parts| - 1][|parts[|parts| - 1]| - 1])
    ensures TrimEnd(Terminated(parts)) == Join(parts, "\n")
  {
    TerminatedJoin(parts);
    var j := Join(parts, "\n");
    JoinLast(parts, "\n");
    var s := j + "\n";
    assert IsWhitespace(s[|j|]);
    assert !IsWhitespace(s[|j| - 1]);
  }

  /** The join ends with the last part (when that part is not empty). */
  lemma {:induction false} JoinLast(parts: seq<string>, sep: string)
    requires parts != [] && parts[|parts| - 1] != []
    ensures |Join(parts, sep)| >= |parts[|parts| - 1]|
    ensures Join(parts, sep)[|Join(parts, sep)| - 1] == parts[|parts| - 1][|parts[|parts| - 1]| - 1]
  {
    if |parts| > 1 {
      assert parts[1..][|parts[1..]| - 1] == parts[|parts| - 1];
      JoinLast(parts[1..], sep);
    }
  }

  /**
   * Joining newline-free lines whose last line is not empty with `\n` and then
   * splitting with `lines()` gives the lines back.
   */
  lemma LinesJoin(parts: seq<string>)
    requires parts != [] && parts[|parts| - 1] != []
    requires forall i :: 0 <= i < |parts| ==> '\n' !in parts[i]
    ensures Lines(Join(parts, "\n")) == parts
  {
    var j := Join(parts, "\n");
    TerminatedJoin(parts);
    LinesTerminated(parts);
    JoinLast(parts, "\n");
    assert j[|j| - 1] != '\n' by {
      var last := parts[|parts| - 1];
      assert last[|last| - 1] in last;
    }
    TerminatedLines(j);
    LinesTerminatedInjective(Lines(j), parts);
  }

  /** Two line lists that terminate to the same text are equal. */
  lemma LinesTerminatedInjective(a: seq<string>, b: seq<string>)
    requires forall i :: 0 <= i < |a| ==> '\n' !in a[i]
    requires forall i :: 0 <= i < |b| ==> '\n' !in b[i]
    requires Terminated(a) == Terminated(b)
    ensures a == b
  {
    LinesTerminated(a);
    LinesTerminated(b);
  }
}
