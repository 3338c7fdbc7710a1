/**
 * bob.storage.Storage: one line per task, "T | 1 | read book",
 * "D | 0 | return book | 2025-01-15 1800", "E | 0 | camp | <from> | <to>",
 * and the reading of such lines back, which skips every line it cannot read.
 * The codec is generic in the type of the times and in how they are written
 * and read: the bob package writes LocalDateTime values with the pattern
 * yyyy-MM-dd HHmm, the root Bob.java writes the raw text as it was typed.
 * Reading and writing the file itself is I/O: the file is a sequence of lines.
 */
module Storage {
  import opened Options
  import opened Strings
  import opened DateTimeUtil
  import opened Tasks

  // ---------------------------------------------------------------- String.split("\\s*\\|\\s*")

  /** The characters the regular expression class \s matches: space, \t, \n, \x0B, \f and \r. */
  predicate IsRegexSpace(c: char) { c == ' ' || 9 <= c as int <= 13 }

  predicate AllRegexSpace(s: string) { forall k :: 0 <= k < |s| ==> IsRegexSpace(s[k]) }

  /** The length of the run of \s characters that starts s. */
  function LeadingBlanks(s: string): (n: nat)
    ensures n <= |s| && AllRegexSpace(s[..n])
    ensures n < |s| ==> !IsRegexSpace(s[n])
  {
    if s == [] || !IsRegexSpace(s[0]) then 0 else 1 + LeadingBlanks(s[1..])
  }

  /** The length of the run of \s characters that ends s. */
  function TrailingBlanks(s: string): (n: nat)
    ensures n <= |s| && AllRegexSpace(s[|s| - n..])
    ensures n < |s| ==> !IsRegexSpace(s[|s| - 1 - n])
  {
    if s == [] || !IsRegexSpace(s[|s| - 1]) then 0 else 1 + TrailingBlanks(s[..|s| - 1])
  }

  /** The position of the first '|' in s, or |s| when there is none. */
  function BarPos(s: string): (r: nat)
    ensures r <= |s| && '|' !in s[..r]
    ensures r < |s| ==> s[r] == '|'
  {
    if s == [] || s[0] == '|' then 0
    else
      assert s[..1 + BarPos(s[1..])] == [s[0]] + s[1..][..BarPos(s[1..])];
      1 + BarPos(s[1..])
  }

  /** Where the piece before the first '|' ends: the run of \s before the '|' is cut off. */
  function PieceEnd(s: string): (r: nat)
    ensures r <= BarPos(s)
  {
    BarPos(s) - TrailingBlanks(s[..BarPos(s)])
  }

  /** Where the text after the first '|' starts: the run of \s after the '|' is skipped. */
  function NextStart(s: string): (r: nat)
    requires BarPos(s) < |s|
    ensures BarPos(s) < r <= |s|
  {
    BarPos(s) + 1 + LeadingBlanks(s[BarPos(s) + 1..])
  }

  /**
   * The text between the matches of \s*\|\s*, left to right. A match is the
   * first '|' with the whole run of \s before it (back to where the search
   * started) and the whole run after it; the text before the first match is
   * kept even when it is empty.
   */
  function Pieces(s: string): (r: seq<string>)
    ensures |r| >= 1
    decreases |s|
  {
    if BarPos(s) == |s| then [s] else [s[..PieceEnd(s)]] + Pieces(s[NextStart(s)..])
  }

  /** No piece holds a '|'. */
  lemma {:induction false} PiecesHaveNoBar(s: string)
    ensures forall k :: 0 <= k < |Pieces(s)| ==> '|' !in Pieces(s)[k]
    decreases |s|
  {
    if BarPos(s) < |s| {
      PiecesHaveNoBar(s[NextStart(s)..]);
      assert s[..PieceEnd(s)] == s[..BarPos(s)][..PieceEnd(s)];
    } else {
      assert s[..BarPos(s)] == s;
    }
  }

  /** split with limit 0 removes the empty strings at the end of the result. */
  function DropTrailingEmpty(fs: seq<string>): (r: seq<string>)
    ensures |r| <= |fs| && r == fs[..|r|]
    ensures r == [] || r[|r| - 1] != []
    ensures forall k :: |r| <= k < |fs| ==> fs[k] == []
  {
    if fs != [] && fs[|fs| - 1] == [] then DropTrailingEmpty(fs[..|fs| - 1]) else fs
  }

  /**
   * line.split("\\s*\\|\\s*"): the whole line when it holds no '|' (even
   * the empty line), else the pieces without the empty ones at the end.
   * No field holds a '|'.
   */
  function SplitFields(line: string): (r: seq<string>)
    ensures '|' !in line ==> r == [line]
    ensures forall k :: 0 <= k < |r| ==> '|' !in r[k]
  {
    if BarPos(line) == |line| then [line]
    else
      PiecesHaveNoBar(line);
      DropTrailingEmpty(Pieces(line))
  }

  // ---------------------------------------------------------------- the line format

  /** The fields joined with " | ". */
  function JoinFields(fs: seq<string>): string
    requires |fs| >= 1
  {
    if |fs| == 1 then fs[0] else fs[0] + " | " + JoinFields(fs[1..])
  }

  /** "1" for a done task, "0" otherwise. */
  function StatusFlag(s: Status): (r: string)
    ensures r == "1" <==> s == Done
  {
    if s == Done then "1" else "0"
  }

  /** The fields of a task's line: tag, flag, description, then its times as show writes them. */
  function Fields<T>(t: TaskData<T>, show: T -> string): (r: seq<string>)
    ensures 3 <= |r| <= 5 && r[0] == [Tag(t.kind)] && r[1] == StatusFlag(t.status) && r[2] == t.description
  {
    var head := [[Tag(t.kind)], StatusFlag(t.status), t.description];
    match t.kind
    case Todo => head
    case Deadline(due) => head + [show(due)]
    case Event(from, to) => head + [show(from), show(to)]
  }

  /** formatTaskLine: the fields joined with " | "; TaskLineRoundTrip states what it preserves. */
  function FormatTaskLine<T>(t: TaskData<T>, show: T -> string): string {
    JoinFields(Fields(t, show))
  }

  /** "1".equals(isDone): only "1" means done. */
  function ParseStatus(flag: string): (s: Status)
    ensures s == Done <==> flag == "1"
  {
    if flag == "1" then Done else NotDone
  }

  /** The fields of a line parseTaskLine accepts: a known tag, and readable times where the tag needs them. */
  predicate Readable<T>(parts: seq<string>, read: string -> Option<T>) {
    |parts| >= 3 &&
    (parts[0] == "T" ||
     (parts[0] == "D" && |parts| >= 4 && read(parts[3]).Some?) ||
     (parts[0] == "E" && |parts| >= 5 && read(parts[3]).Some? && read(parts[4]).Some?))
  }

  /**
   * parseTaskLine: a task from a line of at least three fields whose first is
   * "T", "D" with a readable fourth or "E" with a readable fourth and fifth;
   * fields past those are ignored. None stands for the null of a corrupted line.
   */
  function ParseTaskLine<T>(line: string, read: string -> Option<T>): (r: Option<TaskData<T>>)
    ensures r.Some? <==> Readable(SplitFields(line), read)
    ensures r.Some? ==> [Tag(r.value.kind)] == SplitFields(line)[0]
    ensures r.Some? ==> r.value.description == SplitFields(line)[2] && '|' !in r.value.description
    ensures r.Some? ==> r.value.status == ParseStatus(SplitFields(line)[1])
  {
    var parts := SplitFields(line);
    if |parts| < 3 then None
    else
      var kind: Option<Kind<T>> :=
        if parts[0] == "T" then Some(Kind.Todo)
        else if parts[0] == "D" then
          if |parts| < 4 then None
          else match read(parts[3])
            case Some(due) => Some(Kind.Deadline(due))
            case None => None
        else if parts[0] == "E" then
          if |parts| < 5 then None
          else match (read(parts[3]), read(parts[4]))
            case (Some(from), Some(to)) => Some(Kind.Event(from, to))
            case _ => None
        else None;
      match kind
      case Some(k) => Some(TaskData(k, parts[2], ParseStatus(parts[1])))
      case None => None
  }

  // ---------------------------------------------------------------- the round trip

  /** A field that survives the split unchanged: not empty, no '|', no \s at either end. */
  predicate CleanField(f: string) {
    f != [] && '|' !in f && !IsRegexSpace(f[0]) && !IsRegexSpace(f[|f| - 1])
  }

  predicate AllClean(fs: seq<string>) { forall k :: 0 <= k < |fs| ==> CleanField(fs[k]) }

  /** A trimmed, non-empty text without '|', such as the parser produces, is a clean field. */
  lemma TrimmedIsClean(f: string)
    requires f != [] && IsTrimmed(f) && '|' !in f
    ensures CleanField(f)
  {
  }

  /** A task whose description and times are clean fields, and whose times read back as written. */
  predicate Storable<T(==)>(t: TaskData<T>, show: T -> string, read: string -> Option<T>) {
    CleanField(t.description) &&
    match t.kind
    case Todo => true
    case Deadline(due) => CleanField(show(due)) && read(show(due)) == Some(due)
    case Event(from, to) =>
      CleanField(show(from)) && read(show(from)) == Some(from) &&
      CleanField(show(to)) && read(show(to)) == Some(to)
  }

  lemma {:induction false} JoinFieldsEnds(fs: seq<string>)
    requires |fs| >= 1 && AllClean(fs)
    ensures JoinFields(fs) != [] && JoinFields(fs)[0] == fs[0][0]
  {
  }

  /** The first '|' of a clean field, " | " and more is the one after the field. */
  lemma BarAfterField(f: string, rest: string)
    requires CleanField(f)
    ensures BarPos(f + " | " + rest) == |f| + 1
  {
    var s := f + " | " + rest;
    var bar := BarPos(s);
    forall k | 0 <= k < bar
      ensures s[k] != '|'
    {
      assert s[..bar][k] == s[k];
    }
    forall k | 0 <= k <= |f|
      ensures s[k] != '|'
    {
      if k < |f| {
        assert s[k] == f[k];
      }
    }
    assert s[|f| + 1] == '|';
  }

  /** Exactly one blank ends a clean field followed by a space. */
  lemma OneTrailingBlank(f: string)
    requires CleanField(f)
    ensures TrailingBlanks(f + " ") == 1
  {
    assert (f + " ")[..|f|] == f;
  }

  /** Exactly one blank starts a space followed by text that does not start with one. */
  lemma OneLeadingBlank(rest: string)
    requires rest != [] && !IsRegexSpace(rest[0])
    ensures LeadingBlanks(" " + rest) == 1
  {
    assert (" " + rest)[1..] == rest;
  }

  /** The piece before the first '|' of a clean field, " | " and more is the field. */
  lemma StepPieceEnd(f: string, rest: string)
    requires CleanField(f)
    ensures PieceEnd(f + " | " + rest) == |f|
  {
    var s := f + " | " + rest;
    BarAfterField(f, rest);
    assert s[..|f| + 1] == f + " ";
    OneTrailingBlank(f);
  }

  /** The text after that '|' starts at the rest. */
  lemma StepNextStart(f: string, rest: string)
    requires CleanField(f) && rest != [] && !IsRegexSpace(rest[0])
    ensures BarPos(f + " | " + rest) < |f| + 3 + |rest| && NextStart(f + " | " + rest) == |f| + 3
  {
    BarAfterField(f, rest);
    AfterBar(f, rest);
    OneLeadingBlank(rest);
  }

  /** What follows the '|' written after a field is the blank and the rest. */
  lemma AfterBar(f: string, rest: string)
    ensures (f + " | " + rest)[|f| + 2..] == " " + rest
  {
    var s := f + " | " + rest;
    assert s == (f + " |") + (" " + rest);
  }

  /** One step of the split: a clean field, " | ", and the rest. */
  lemma PiecesStep(f: string, rest: string)
    requires CleanField(f) && rest != [] && !IsRegexSpace(rest[0])
    ensures Pieces(f + " | " + rest) == [f] + Pieces(rest)
  {
    var s := f + " | " + rest;
    StepPieceEnd(f, rest);
    StepNextStart(f, rest);
    assert s[..|f|] == f && s[|f| + 3..] == rest;
  }

  /** Splitting clean fields joined with " | " gives the pieces back. */
  lemma {:induction false} PiecesJoin(fs: seq<string>)
    requires |fs| >= 1 && AllClean(fs)
    ensures Pieces(JoinFields(fs)) == fs
  {
    if |fs| > 1 {
      JoinFieldsEnds(fs[1..]);
      PiecesStep(fs[0], JoinFields(fs[1..]));
      PiecesJoin(fs[1..]);
      assert [fs[0]] + fs[1..] == fs;
    }
  }

  /** split reads back the clean fields that were joined with " | ". */
  lemma SplitJoin(fs: seq<string>)
    requires |fs| >= 1 && AllClean(fs)
    ensures SplitFields(JoinFields(fs)) == fs
  {
    PiecesJoin(fs);
    if |fs| == 1 {
      assert BarPos(fs[0]) == |fs[0]| by {
        assert forall k :: 0 <= k < |fs[0]| ==> fs[0][k] != '|';
      }
    } else {
      BarAfterField(fs[0], JoinFields(fs[1..]));
    }
  }

  /** Every storable task is read back from the line written for it. */
  lemma TaskLineRoundTrip<T>(t: TaskData<T>, show: T -> string, read: string -> Option<T>)
    requires Storable(t, show, read)
    ensures ParseTaskLine(FormatTaskLine(t, show), read) == Some(t)
  {
    var fs := Fields(t, show);
    assert SplitFields(FormatTaskLine(t, show)) == fs by {
      FieldsClean(t, show, read);
      SplitJoin(fs);
    }
    ParseOwnFields(FormatTaskLine(t, show), t, show, read);
  }

  /** The fields written for a storable task are clean. */
  lemma FieldsClean<T>(t: TaskData<T>, show: T -> string, read: string -> Option<T>)
    requires Storable(t, show, read)
    ensures AllClean(Fields(t, show))
  {
    assert CleanField([Tag(t.kind)]) && CleanField(StatusFlag(t.status));
  }

  /** A line split into the fields written for t reads as t. */
  lemma ParseOwnFields<T>(line: string, t: TaskData<T>, show: T -> string, read: string -> Option<T>)
    requires Storable(t, show, read) && SplitFields(line) == Fields(t, show)
    ensures ParseTaskLine(line, read) == Some(t)
  {
    assert ParseStatus(StatusFlag(t.status)) == t.status;
  }

  /** The root Bob.java keeps its times as the text typed: it writes them as they are ... */
  function Verbatim(x: string): string { x }

  /** ... and reads back whatever the field holds. */
  function ReadVerbatim(x: string): Option<string> { Some(x) }

  /** A '|' typed into a description ends it: the rest of the description is lost on reloading. */
  lemma BarInDescriptionExample()
    ensures ParseTaskLine(FormatTaskLine(TaskData(Kind.Todo, "a | b", NotDone), Verbatim), ReadVerbatim)
      == Some(TaskData(Kind.Todo, "a", NotDone))
  {
    var fs := ["T", "0", "a", "b"];
    var line := FormatTaskLine(TaskData(Kind.Todo, "a | b", NotDone), Verbatim);
    assert line == JoinFields(fs) by {
      assert line == JoinFields(["T", "0", "a | b"]);
      assert JoinFields(["0", "a | b"]) == JoinFields(["0", "a", "b"]);
    }
    assert SplitFields(line) == fs by {
      assert AllClean(fs);
      SplitJoin(fs);
    }
  }

  // ---------------------------------------------------------------- whole files

  /** The tasks one line contributes: its task, or none when it cannot be read. */
  function LineTasks<T>(line: string, read: string -> Option<T>): (r: seq<TaskData<T>>)
    ensures |r| <= 1
  {
    match ParseTaskLine(line, read)
    case Some(t) => [t]
    case None => []
  }

  /** load: the tasks of the lines that can be read, in file order. */
  function ParseLines<T>(lines: seq<string>, read: string -> Option<T>): (r: seq<TaskData<T>>)
    ensures |r| <= |lines|
  {
    if lines == [] then []
    else ParseLines(lines[..|lines| - 1], read) + LineTasks(lines[|lines| - 1], read)
  }

  /** save: one line per task, in list order. */
  function FormatLines<T>(ts: seq<TaskData<T>>, show: T -> string): (r: seq<string>)
    ensures |r| == |ts| && forall i :: 0 <= i < |ts| ==> r[i] == FormatTaskLine(ts[i], show)
  {
    seq(|ts|, i requires 0 <= i < |ts| => FormatTaskLine(ts[i], show))
  }

  /** Loading reads line by line: the tasks of a concatenation are the concatenation of the tasks. */
  lemma {:induction false} ParseLinesAppend<T>(a: seq<string>, b: seq<string>, read: string -> Option<T>)
    ensures ParseLines(a + b, read) == ParseLines(a, read) + ParseLines(b, read)
  {
    if b == [] {
      assert a + b == a;
    } else {
      var init, last := b[..|b| - 1], b[|b| - 1];
      assert (a + b)[..|a + b| - 1] == a + init;
      assert (a + b)[|a + b| - 1] == last;
      ParseLinesAppend(a, init, read);
      ConcatAssociates(ParseLines(a, read), ParseLines(init, read), LineTasks(last, read));
    }
  }

  /** A corrupted line is skipped and changes nothing else. */
  lemma SkipsUnreadableLine<T>(a: seq<string>, line: string, b: seq<string>, read: string -> Option<T>)
    requires ParseTaskLine(line, read) == None
    ensures ParseLines(a + [line] + b, read) == ParseLines(a, read) + ParseLines(b, read)
  {
    var one := ParseLines([line], read);
    assert one == [] by {
      assert [line][..0] == [];
      assert LineTasks(line, read) == [];
    }
    var front := ParseLines(a + [line], read);
    assert front == ParseLines(a, read) by {
      ParseLinesAppend(a, [line], read);
    }
    assert ParseLines(a + [line] + b, read) == front + ParseLines(b, read) by {
      ParseLinesAppend(a + [line], b, read);
    }
  }

  /** Saving storable tasks and loading the file gives the same tasks back, in the same order. */
  lemma {:induction false} SaveThenLoad<T>(ts: seq<TaskData<T>>, show: T -> string, read: string -> Option<T>)
    requires forall i :: 0 <= i < |ts| ==> Storable(ts[i], show, read)
    ensures ParseLines(FormatLines(ts, show), read) == ts
  {
    if ts != [] {
      var init, last := ts[..|ts| - 1], ts[|ts| - 1];
      assert ts == init + [last];
      var lines := FormatLines(ts, show);
      assert ParseLines(lines[..|ts| - 1], read) == init by {
        assert lines[..|ts| - 1] == FormatLines(init, show);
        SaveThenLoad(init, show, read);
      }
      assert LineTasks(lines[|ts| - 1], read) == [last] by {
        TaskLineRoundTrip(last, show, read);
      }
    }
  }

  // ---------------------------------------------------------------- the bob package instance

  /** The shape of a stored LocalDateTime: digits with '-' at 4 and 7 and a space at 10. */
  lemma StorageShape(dt: Timestamp)
    ensures var s := FormatStorage(dt);
      s[4] == '-' && s[7] == '-' && s[10] == ' ' &&
      AllDigits(s[..4]) && AllDigits(s[5..7]) && AllDigits(s[8..10]) && AllDigits(s[11..])
  {
    var d := FormatIsoDate(dt.date);
    var y, m, n := PaddedDigits(dt.date.year, 4), PaddedDigits(dt.date.month, 2), PaddedDigits(dt.date.day, 2);
    assert d == y + "-" + m + "-" + n;
    var s := FormatStorage(dt);
    assert s[..10] == d;
    assert d[5..7] == m && d[8..] == n;
    assert s[5..7] == m && s[8..10] == n;
  }

  /** A stored LocalDateTime is a clean field: digits, '-' and one inner space. */
  lemma StorageFieldClean(dt: Timestamp)
    ensures CleanField(FormatStorage(dt))
  {
    var s := FormatStorage(dt);
    StorageShape(dt);
    assert s[0] == s[..4][0];
    assert s[14] == s[11..][3];
    forall k | 0 <= k < |s| ensures s[k] != '|' {
      if k < 4 {
        assert s[k] == s[..4][k];
      } else if 4 < k < 7 {
        assert s[k] == s[5..7][k - 5];
      } else if 7 < k < 10 {
        assert s[k] == s[8..10][k - 8];
      } else if k > 10 {
        assert s[k] == s[11..][k - 11];
      }
    }
  }

  /** A bob task with a clean description is storable with the storage pattern. */
  lemma TimestampTaskStorable(t: TaskData<Timestamp>)
    requires CleanField(t.description)
    ensures Storable(t, FormatStorage, ParseStorage)
  {
    match t.kind
    case Todo =>
    case Deadline(due) =>
      StorageFieldClean(due);
      StorageRoundTrip(due);
    case Event(from, to) =>
      StorageFieldClean(from);
      StorageRoundTrip(from);
      StorageFieldClean(to);
      StorageRoundTrip(to);
  }

  // ---------------------------------------------------------------- task objects

  /** The task object parseTaskLine constructs for a line: a fresh object of the line's kind. */
  method NewTask<T>(d: TaskData<T>) returns (t: Task<T>)
    ensures fresh(t) && t.Data() == d
  {
    if d.kind.Todo? {
      t := new Task.Todo(d.description);
    } else if d.kind.Deadline? {
      t := new Task.Deadline(d.description, d.kind.due);
    } else {
      t := new Task.Event(d.description, d.kind.from, d.kind.to);
    }
    t.SetStatus(d.status);
  }

  /** The tasks of one more line of the file. */
  lemma LoadStep<T>(lines: seq<string>, i: nat, read: string -> Option<T>)
    requires i < |lines|
    ensures ParseLines(lines[..i + 1], read) == ParseLines(lines[..i], read) + LineTasks(lines[i], read)
  {
    assert lines[..i + 1][..i] == lines[..i];
  }

  /** One line of load: a fresh task object appended when the line can be read. */
  method LoadLine<T>(tasks: seq<Task<T>>, ghost loaded: seq<TaskData<T>>, line: string, read: string -> Option<T>)
    returns (more: seq<Task<T>>)
    requires Distinct(tasks) && Snapshot(tasks) == loaded
    ensures Distinct(more)
    ensures Snapshot(more) == loaded + LineTasks(line, read)
  {
    more := tasks;
    var found := LineTasks(line, read);
    if found != [] {
      var t := NewTask(found[0]);
      assert Snapshot(tasks) == loaded;
      more := tasks + [t];
      assert found == [found[0]];
    }
  }

  /** load, over the lines of an existing file: a fresh task object per readable line, in order. */
  method Load<T>(lines: seq<string>, read: string -> Option<T>) returns (tasks: seq<Task<T>>)
    ensures Snapshot(tasks) == ParseLines(lines, read)
    ensures Distinct(tasks)
  {
    tasks := [];
    var i := 0;
    while i < |lines|
      invariant 0 <= i <= |lines|
      invariant Snapshot(tasks) == ParseLines(lines[..i], read)
      invariant Distinct(tasks)
    {
      LoadStep(lines, i, read);
      tasks := LoadLine(tasks, ParseLines(lines[..i], read), lines[i], read);
      i := i + 1;
    }
    assert lines[..|lines|] == lines;
  }

  /** save, as the lines it writes: one line per task, in list order. */
  method Save<T>(tasks: seq<Task<T>>, show: T -> string) returns (lines: seq<string>)
    ensures lines == FormatLines(Snapshot(tasks), show)
  {
    lines := [];
    var i := 0;
    while i < |tasks|
      invariant 0 <= i <= |tasks|
      invariant |lines| == i && forall k :: 0 <= k < i ==> lines[k] == FormatTaskLine(tasks[k].Data(), show)
    {
      lines := lines + [FormatTaskLine(tasks[i].Data(), show)];
      i := i + 1;
    }
  }
}
