/**
 * The default-package Bob: the earlier, single-file version of the program.
 * Its main loop reads a line, trims it, runs one branch of an if-chain and
 * prints the reply between divider lines. Times are kept as the text the
 * user typed and are never parsed.
 *
 * One pass of the loop is Step, a function from the task values and the line
 * to a Reaction: the tasks after it, the lines it printed, whether the file
 * was written and whether the loop ends. RunLines is the loop over a run of
 * input lines, until "bye" or the end of the input. The class Session carries
 * out the same pass (Handle) and the same loop (Loop) on task objects. Saving
 * is a parameter, as in the bob package: None when the file was written,
 * Some(reason) when saveTasksToDisk caught an IOException.
 */
module LegacyBob {
  import opened Options
  import opened Strings
  import opened Tasks
  import opened Parser
  import opened Storage
  import Bob
  import Commands

  /** A task as the root program keeps it: times are raw strings. */
  type Raw = TaskData<string>

  /** LINE, printed above and below every reply. */
  const Divider := "____________________________________________________________"

  const ByeText := "Bye. Hope to see you again soon!"
  const ListHeader := "Here are the tasks in your list:"
  const MarkedHeader := "Nice! I've marked this task as done:"
  const UnmarkedHeader := "OK, I've marked this task as not done yet:"
  const RemovedHeader := "Noted. I've removed this task:"
  const AddedHeader := "Got it. I've added this task:"

  /** A task's toString in the root program: the times exactly as typed. */
  function Show(d: Raw): string {
    Display(d, Verbatim)
  }

  /** A reply as the root program prints it: its lines between two dividers. */
  function Framed(body: seq<string>): seq<string> {
    [Divider] + body + [Divider]
  }

  /** The line that reports the size of the list. */
  function CountLine(n: nat): string {
    "Now you have " + NatToString(n) + " tasks in the list."
  }

  /** One line of the list: the task's number, a dot and the task. */
  function Entry(n: nat, d: Raw): string {
    NatToString(n) + "." + Show(d)
  }

  /** The lines of the list command's loop: task k numbered k + n. */
  function Numbered(ds: seq<Raw>, n: nat): (r: seq<string>)
    ensures |r| == |ds|
    ensures forall k :: 0 <= k < |ds| ==> r[k] == Entry(n + k, ds[k])
    decreases |ds|
  {
    if ds == [] then [] else [Entry(n, ds[0])] + Numbered(ds[1..], n + 1)
  }

  /** Lines that number every task from 1 are the numbered list. */
  lemma NumberedPointwise(ds: seq<Raw>, lines: seq<string>)
    requires |lines| == |ds| && forall k :: 0 <= k < |ds| ==> lines[k] == Entry(k + 1, ds[k])
    ensures lines == Numbered(ds, 1)
  {
  }

  /** The reply to "list": the header, then every task numbered from 1. */
  function ListLines(ds: seq<Raw>): seq<string> {
    Framed([ListHeader] + Numbered(ds, 1))
  }

  // ---------------------------------------------------------------- the if-chain of main

  /**
   * The branch of main's if-chain a trimmed line takes. The chain is the bob
   * package's, in the same order, without its find and on branches, which
   * come last there: those lines are unknown commands here.
   */
  function Classify(input: string): (c: Bob.Command)
    ensures c !in {Bob.BareFind, Bob.FindCommand, Bob.OnCommand}
    ensures c != Bob.UnknownCommand ==> c == Bob.Dispatch(input)
  {
    var c := Bob.Dispatch(input);
    if c in {Bob.BareFind, Bob.FindCommand, Bob.OnCommand} then Bob.UnknownCommand else c
  }

  // ---------------------------------------------------------------- one pass over values

  /** What a branch decides before it saves: new tasks and the reply that reports them, or a reply alone. */
  datatype Plan = Update(tasks: seq<Raw>, report: seq<string>) | Reply(lines: seq<string>, exit: bool)

  /** printError, and the continue that follows it. */
  function Refuse(message: string): Plan {
    Reply(Framed([message]), false)
  }

  /** The mark and unmark branches once the number is read. */
  function StatusAt(ds: seq<Raw>, index: int, s: Status, header: string): Plan {
    if !(0 <= index < |ds|) then Refuse(Bob.TaskNotFoundError)
    else
      var d := ds[index].(status := s);
      Update(ds[index := d], Framed([header, "  " + Show(d)]))
  }

  /** The mark and unmark branches: the number is read by the root parseIndex. */
  function StatusPlan(ds: seq<Raw>, input: string, prefix: string, s: Status, header: string): Plan {
    StatusAt(ds, ParseIndexUnchecked(input, prefix), s, header)
  }

  /** The delete branch once the number is read. */
  function DeleteAt(ds: seq<Raw>, index: int): Plan {
    if !(0 <= index < |ds|) then Refuse(Bob.TaskNotFoundError)
    else
      var rest := ds[..index] + ds[index + 1..];
      Update(rest, Framed([RemovedHeader, "  " + Show(ds[index]), CountLine(|rest|)]))
  }

  /** The delete branch. */
  function DeletePlan(ds: seq<Raw>, input: string): Plan {
    DeleteAt(ds, ParseIndexUnchecked(input, DeletePrefix))
  }

  /** tasks.add, then printAdded. */
  function AddPlan(ds: seq<Raw>, d: Raw): Plan {
    Update(ds + [d], Framed([AddedHeader, "  " + Show(d), CountLine(|ds| + 1)]))
  }

  /** The end of the todo, deadline and event branches. */
  function AddOrRefuse(ds: seq<Raw>, o: Outcome<Raw>): Plan {
    match o
    case Failure(message) => Refuse(message)
    case Success(d) => AddPlan(ds, d)
  }

  /** The todo branch up to the new task. */
  function TodoTask(input: string): (r: Outcome<Raw>)
    requires StartsWith(input, TodoPrefix)
    ensures r.Success? <==> ParseTodoDescription(input) != []
    ensures r.Success? ==> r.value == TaskData(Kind.Todo, ParseTodoDescription(input), NotDone)
    ensures r.Failure? ==> r.message == Bob.TodoDescriptionError
  {
    var description := ParseTodoDescription(input);
    if description == [] then Failure(Bob.TodoDescriptionError)
    else Success(TaskData(Kind.Todo, description, NotDone))
  }

  /** The deadline branch up to the new task: the time is kept as typed. */
  function DeadlineTask(input: string): (r: Outcome<Raw>)
    requires StartsWith(input, DeadlinePrefix)
    ensures var args := ParseDeadlineArgs(input);
      (args.Failure? ==> r == Failure(Bob.Wrong + args.message)) &&
      (args.Success? ==> r == Success(TaskData(Kind.Deadline(args.value.due), args.value.description, NotDone)))
  {
    match ParseDeadlineArgs(input)
    case Failure(message) => Failure(Bob.Wrong + message)
    case Success(args) => Success(TaskData(Kind.Deadline(args.due), args.description, NotDone))
  }

  /** The event branch up to the new task: start and end are kept as typed, in either order. */
  function EventTask(input: string): (r: Outcome<Raw>)
    requires StartsWith(input, EventPrefix)
    ensures var args := ParseEventArgs(input);
      (args.Failure? ==> r == Failure(Bob.Wrong + args.message)) &&
      (args.Success? ==> r == Success(TaskData(Kind.Event(args.value.from, args.value.to), args.value.description, NotDone)))
  {
    match ParseEventArgs(input)
    case Failure(message) => Failure(Bob.Wrong + message)
    case Success(args) => Success(TaskData(Kind.Event(args.from, args.to), args.description, NotDone))
  }

  /** The branches that change the list and save it. */
  function ChangePlan(ds: seq<Raw>, input: string, c: Bob.Command): Plan
    requires c == Classify(input) && Bob.Mutates(c)
  {
    if c == Bob.MarkCommand then StatusPlan(ds, input, MarkPrefix, Done, MarkedHeader)
    else if c == Bob.UnmarkCommand then StatusPlan(ds, input, UnmarkPrefix, NotDone, UnmarkedHeader)
    else if c == Bob.DeleteCommand then DeletePlan(ds, input)
    else if c == Bob.TodoCommand then AddOrRefuse(ds, TodoTask(input))
    else if c == Bob.DeadlineCommand then AddOrRefuse(ds, DeadlineTask(input))
    else AddOrRefuse(ds, EventTask(input))
  }

  /** The branches that only print: bye, list, a command word alone, an unknown line. */
  function AnswerLines(ds: seq<Raw>, c: Bob.Command): seq<string> {
    if c == Bob.ByeCommand then Framed([ByeText])
    else if c == Bob.ListCommand then ListLines(ds)
    else Framed([Bob.Refusal(c)])
  }

  /** What one pass decides for a trimmed line, before anything is saved. */
  function PlanFor(ds: seq<Raw>, input: string): Plan {
    var c := Classify(input);
    if Bob.Mutates(c) then ChangePlan(ds, input, c) else Reply(AnswerLines(ds, c), c == Bob.ByeCommand)
  }

  /** What one pass did: the tasks after it, what it printed, whether the file was written, whether the loop ends. */
  datatype Reaction = Reaction(tasks: seq<Raw>, printed: seq<string>, saved: bool, exit: bool)

  /**
   * saveTasksToDisk and the reply after it: a change is kept whether or not
   * it was saved, and a failed save prints its reason before the reply.
   */
  function Commit(ds: seq<Raw>, p: Plan, saveError: Option<string>): (r: Reaction)
    ensures p.Reply? ==> r == Reaction(ds, p.lines, false, p.exit)
    ensures p.Update? ==> r.tasks == p.tasks && !r.exit && (r.saved <==> saveError.None?)
    ensures p.Update? && saveError.None? ==> r.printed == p.report
    ensures p.Update? && saveError.Some? ==> r.printed == [Bob.SaveFailure + saveError.value] + p.report
  {
    match p
    case Reply(lines, exit) => Reaction(ds, lines, false, exit)
    case Update(tasks, report) =>
      if saveError.None? then Reaction(tasks, report, true, false)
      else Reaction(tasks, [Bob.SaveFailure + saveError.value] + report, false, false)
  }

  /** One pass of main's loop over the line the scanner returned. */
  function Step(ds: seq<Raw>, line: string, saveError: Option<string>): Reaction {
    Commit(ds, PlanFor(ds, Trim(line)), saveError)
  }

  /** The file after a pass: the lines of its tasks when it saved, as it was otherwise. */
  function FileAfter(r: Reaction, file: seq<string>): seq<string> {
    if r.saved then FormatLines(r.tasks, Verbatim) else file
  }

  /** What main's loop did with a run of input lines: the tasks and file after it, all it printed, and whether "bye" ended it. */
  datatype Transcript = Transcript(tasks: seq<Raw>, file: seq<string>, printed: seq<string>, ended: bool)

  /** One pass of the loop, as a function of the tasks, the line and the outcome of the save. */
  type Pass = (seq<Raw>, string, Option<string>) -> Reaction

  /**
   * main's loop over the input lines, each paired with the outcome of its
   * save, until "bye" or the end of the input; RunLines(Step, ...) is the
   * root program's.
   */
  function RunLines(pass: Pass, ds: seq<Raw>, file: seq<string>, lines: seq<string>, saveErrors: seq<Option<string>>): Transcript
    requires |saveErrors| == |lines|
    decreases |lines|
  {
    if lines == [] then Transcript(ds, file, [], false)
    else
      var r := pass(ds, lines[0], saveErrors[0]);
      if r.exit then Transcript(r.tasks, FileAfter(r, file), r.printed, true)
      else Resume(r.printed, RunLines(pass, r.tasks, FileAfter(r, file), lines[1..], saveErrors[1..]))
  }

  /** A run that resumes after the lines already printed. */
  function Resume(printed: seq<string>, t: Transcript): Transcript {
    t.(printed := printed + t.printed)
  }

  // ---------------------------------------------------------------- what a pass does

  /** Blanks around a line make no difference: the loop trims every line before looking at it. */
  lemma PaddingIsIgnored(ds: seq<Raw>, line: string, saveError: Option<string>)
    ensures Step(ds, Trim(line), saveError) == Step(ds, line, saveError)
  {
    TrimIdempotent(line);
  }

  /** "bye" in any letter case ends the loop, changes nothing and saves nothing; no other line ends it. */
  lemma ByeEnds(ds: seq<Raw>, line: string, saveError: Option<string>)
    ensures Step(ds, line, saveError).exit <==> EqualsIgnoreCase(Trim(line), "bye")
    ensures EqualsIgnoreCase(Trim(line), "bye") ==> Step(ds, line, saveError) == Reaction(ds, Framed([ByeText]), false, true)
  {
  }

  /** The root program has no find and no on: such lines are unknown commands, and nothing changes. */
  lemma FindAndOnAreUnknown(ds: seq<Raw>, line: string, saveError: Option<string>)
    requires var input := Trim(line); input == "find" || StartsWith(input, FindPrefix) || StartsWith(input, OnPrefix)
    ensures Step(ds, line, saveError) == Reaction(ds, Framed([Commands.UnknownCommandError]), false, false)
  {
    var input := Trim(line);
    if input == "find" {
      Bob.DispatchFind();
    } else {
      Bob.PrefixesReachHandlers(input);
    }
  }

  /** A failed save is printed first, and the change it was meant to keep stays in the list all the same. */
  lemma SaveFailureKeepsChange(ds: seq<Raw>, line: string, reason: string)
    ensures Step(ds, line, Some(reason)).tasks == Step(ds, line, None).tasks
    ensures !Step(ds, line, Some(reason)).saved
    ensures Step(ds, line, None).saved ==>
      Step(ds, line, Some(reason)).printed == [Bob.SaveFailure + reason] + Step(ds, line, None).printed
  {
  }

  /**
   * Only mark, unmark, delete, todo, deadline and event change the list or
   * save it, and every change they make is saved unless the save fails.
   */
  lemma OnlyChangesAreSaved(ds: seq<Raw>, line: string, saveError: Option<string>)
    ensures !Bob.Mutates(Classify(Trim(line))) ==> Step(ds, line, saveError).tasks == ds && !Step(ds, line, saveError).saved
    ensures Step(ds, line, saveError).tasks != ds && saveError.None? ==> Step(ds, line, saveError).saved
  {
  }

  /** mark and unmark with a number in range set that task's status and nothing else; any other number is refused. */
  lemma StatusChangesOnlyThatTask(ds: seq<Raw>, index: int, s: Status, header: string)
    ensures var r := StatusAt(ds, index, s, header);
      (r.Reply? <==> !(0 <= index < |ds|)) &&
      (r.Reply? ==> r == Refuse(Bob.TaskNotFoundError)) &&
      (r.Update? ==>
        |r.tasks| == |ds| && r.tasks[index].status == s &&
        r.tasks[index].kind == ds[index].kind && r.tasks[index].description == ds[index].description &&
        (forall j :: 0 <= j < |ds| && j != index ==> r.tasks[j] == ds[j]) &&
        r.report == Framed([header, "  " + Show(r.tasks[index])]))
  {
  }

  /** delete with a number in range removes exactly that task and counts what is left; any other number is refused. */
  lemma DeleteRemovesThatTask(ds: seq<Raw>, index: int)
    ensures var r := DeleteAt(ds, index);
      (r.Reply? <==> !(0 <= index < |ds|)) &&
      (r.Reply? ==> r == Refuse(Bob.TaskNotFoundError)) &&
      (r.Update? ==>
        |r.tasks| == |ds| - 1 && r.tasks[..index] == ds[..index] &&
        (forall j :: index <= j < |r.tasks| ==> r.tasks[j] == ds[j + 1]) &&
        r.report == Framed([RemovedHeader, "  " + Show(ds[index]), CountLine(|r.tasks|)]))
  {
    if 0 <= index < |ds| {
      assert (ds[..index] + ds[index + 1..])[..index] == ds[..index];
    }
  }

  /** A line "deadline <description> /by <time>" adds that deadline whatever the time says: times are never checked. */
  lemma AnyDeadlineTimeIsAccepted(ds: seq<Raw>, description: string, due: string)
    requires description != [] && IsTrimmed(description) && !Contains(description, "/by")
    requires due != [] && IsTrimmed(due)
    ensures PlanFor(ds, DeadlinePrefix + description + " /by " + due) == AddPlan(ds, TaskData(Kind.Deadline(due), description, NotDone))
  {
    var input := DeadlinePrefix + description + " /by " + due;
    assert input == DeadlinePrefix + (description + " /by " + due);
    PrefixStarts(DeadlinePrefix, description + " /by " + due);
    Bob.ReachesDeadline(input);
    DeadlineArgsRoundTrip(description, due);
  }

  /** A line "event <description> /from <start> /to <end>" adds that event, even when its end comes before its start. */
  lemma AnyEventTimesAreAccepted(ds: seq<Raw>, description: string, from: string, to: string)
    requires description != [] && IsTrimmed(description)
    requires !Contains(description, "/from") && !Contains(description, "/to")
    requires from != [] && IsTrimmed(from) && !Contains(from, "/to")
    requires to != [] && IsTrimmed(to)
    ensures PlanFor(ds, EventPrefix + description + " /from " + from + " /to " + to) ==
      AddPlan(ds, TaskData(Kind.Event(from, to), description, NotDone))
  {
    var input := EventPrefix + description + " /from " + from + " /to " + to;
    assert input == EventPrefix + (description + " /from " + from + " /to " + to);
    PrefixStarts(EventPrefix, description + " /from " + from + " /to " + to);
    Bob.ReachesEvent(input);
    EventArgsRoundTrip(description, from, to);
  }

  /** The list command prints task k of the list as "k+1." and its toString. */
  lemma ListNumbersFromOne(ds: seq<Raw>, k: nat)
    requires k < |ds|
    ensures ListLines(ds)[k + 2] == Entry(k + 1, ds[k])
    ensures |ListLines(ds)| == |ds| + 3
  {
    var body := [ListHeader] + Numbered(ds, 1);
    assert ListLines(ds)[k + 2] == body[k + 1];
  }

  /** The lines the root program writes read back as the same tasks when no field could confuse the split. */
  lemma SavedRawTasksReload(ds: seq<Raw>)
    requires forall i :: 0 <= i < |ds| ==> CleanField(ds[i].description)
    requires forall i :: 0 <= i < |ds| && ds[i].kind.Deadline? ==> CleanField(ds[i].kind.due)
    requires forall i :: 0 <= i < |ds| && ds[i].kind.Event? ==> CleanField(ds[i].kind.from) && CleanField(ds[i].kind.to)
    ensures ParseLines(FormatLines(ds, Verbatim), ReadVerbatim) == ds
  {
    forall i | 0 <= i < |ds|
      ensures Storable(ds[i], Verbatim, ReadVerbatim)
    {
    }
    SaveThenLoad(ds, Verbatim, ReadVerbatim);
  }

  /** Printing one pass's lines and then resuming after them is resuming after both. */
  lemma ResumeTwice(printed: seq<string>, out: seq<string>, t: Transcript)
    ensures Resume(printed, Resume(out, t)) == Resume(printed + out, t)
  {
    ConcatAssociates(printed, out, t.printed);
  }

  /** Once "bye" has been read, the lines after it are never looked at. */
  lemma {:induction false} LinesAfterByeAreIgnored(pass: Pass, ds: seq<Raw>, file: seq<string>, lines: seq<string>,
                                                   saveErrors: seq<Option<string>>, more: seq<string>,
                                                   moreErrors: seq<Option<string>>)
    requires |saveErrors| == |lines| && |moreErrors| == |more| && RunLines(pass, ds, file, lines, saveErrors).ended
    ensures RunLines(pass, ds, file, lines + more, saveErrors + moreErrors) == RunLines(pass, ds, file, lines, saveErrors)
    decreases |lines|
  {
    var r := pass(ds, lines[0], saveErrors[0]);
    assert (lines + more)[0] == lines[0] && (saveErrors + moreErrors)[0] == saveErrors[0];
    if !r.exit {
      assert (lines + more)[1..] == lines[1..] + more;
      assert (saveErrors + moreErrors)[1..] == saveErrors[1..] + moreErrors;
      LinesAfterByeAreIgnored(pass, r.tasks, FileAfter(r, file), lines[1..], saveErrors[1..], more, moreErrors);
    }
  }

  /** A pass that saves every change it makes when the save goes through. */
  ghost predicate SavesChanges(pass: Pass) {
    forall ds, line :: pass(ds, line, None).tasks != ds ==> pass(ds, line, None).saved
  }

  /** When the file holds the list and every save goes through, the file still holds the list after every line. */
  lemma {:induction false} FileFollowsListWith(pass: Pass, ds: seq<Raw>, lines: seq<string>, saveErrors: seq<Option<string>>)
    requires SavesChanges(pass)
    requires |saveErrors| == |lines| && forall k :: 0 <= k < |saveErrors| ==> saveErrors[k].None?
    ensures var t := RunLines(pass, ds, FormatLines(ds, Verbatim), lines, saveErrors); t.file == FormatLines(t.tasks, Verbatim)
    decreases |lines|
  {
    if lines != [] {
      var r := pass(ds, lines[0], None);
      assert FileAfter(r, FormatLines(ds, Verbatim)) == FormatLines(r.tasks, Verbatim);
      if !r.exit {
        FileFollowsListWith(pass, r.tasks, lines[1..], saveErrors[1..]);
      }
    }
  }

  /** The root program's loop keeps the file equal to the list for as long as every save goes through. */
  lemma FileFollowsList(ds: seq<Raw>, lines: seq<string>, saveErrors: seq<Option<string>>)
    requires |saveErrors| == |lines| && forall k :: 0 <= k < |saveErrors| ==> saveErrors[k].None?
    ensures var t := RunLines(Step, ds, FormatLines(ds, Verbatim), lines, saveErrors); t.file == FormatLines(t.tasks, Verbatim)
  {
    forall d, line
      ensures Step(d, line, None).tasks != d ==> Step(d, line, None).saved
    {
      OnlyChangesAreSaved(d, line, None);
    }
    FileFollowsListWith(Step, ds, lines, saveErrors);
  }

  /**
   * Where a run stands after its first i lines, with ds and file as they
   * left the list and the file: it has ended, with the whole run's result,
   * or the whole run is what was printed so far followed by the run of the
   * lines from i on.
   */
  ghost predicate RunsAs(pass: Pass, whole: Transcript, ds: seq<Raw>, file: seq<string>, printed: seq<string>, ended: bool,
                         lines: seq<string>, saveErrors: seq<Option<string>>, i: nat)
  {
    |saveErrors| == |lines| && i <= |lines| &&
    (ended ==> whole == Transcript(ds, file, printed, true)) &&
    (!ended ==> whole == Resume(printed, RunLines(pass, ds, file, lines[i..], saveErrors[i..])))
  }

  /** Before the first line, nothing is printed and the whole run lies ahead. */
  lemma Start(pass: Pass, ds: seq<Raw>, file: seq<string>, lines: seq<string>, saveErrors: seq<Option<string>>)
    requires |saveErrors| == |lines|
    ensures RunsAs(pass, RunLines(pass, ds, file, lines, saveErrors), ds, file, [], false, lines, saveErrors, 0)
  {
    assert lines[0..] == lines && saveErrors[0..] == saveErrors;
  }

  /** Line i's pass moves a run that has not ended on to line i + 1. */
  lemma Advance(pass: Pass, whole: Transcript, ds: seq<Raw>, file: seq<string>, printed: seq<string>,
                lines: seq<string>, saveErrors: seq<Option<string>>, i: nat)
    requires i < |lines| && RunsAs(pass, whole, ds, file, printed, false, lines, saveErrors, i)
    ensures var r := pass(ds, lines[i], saveErrors[i]);
      RunsAs(pass, whole, r.tasks, FileAfter(r, file), printed + r.printed, r.exit, lines, saveErrors, i + 1)
  {
    assert lines[i..][0] == lines[i] && lines[i..][1..] == lines[i + 1..];
    assert saveErrors[i..][0] == saveErrors[i] && saveErrors[i..][1..] == saveErrors[i + 1..];
    var r := pass(ds, lines[i], saveErrors[i]);
    if !r.exit {
      ResumeTwice(printed, r.printed, RunLines(pass, r.tasks, FileAfter(r, file), lines[i + 1..], saveErrors[i + 1..]));
    }
  }

  /** A run that has ended, or has no lines left, is the whole run. */
  lemma Finish(pass: Pass, whole: Transcript, ds: seq<Raw>, file: seq<string>, printed: seq<string>, ended: bool,
               lines: seq<string>, saveErrors: seq<Option<string>>, i: nat)
    requires RunsAs(pass, whole, ds, file, printed, ended, lines, saveErrors, i) && (ended || i == |lines|)
    ensures whole == Transcript(ds, file, printed, ended)
  {
    if !ended {
      assert lines[i..] == [];
    }
  }

  // ---------------------------------------------------------------- the objects

  class Session {
    /** The ArrayList main keeps its tasks in. */
    var tasks: seq<Task<string>>
    /** The lines of the storage file as the last save that went through wrote them. */
    var file: seq<string>

    /** No task object is in the list twice. */
    predicate Valid()
      reads this
    {
      Distinct(tasks)
    }

    /** The session carried out the pass r: the list holds r's tasks, r's lines were printed, and the file was written when r saved. */
    predicate Reflects(r: Reaction, oldFile: seq<string>, printed: seq<string>, exit: bool)
      reads this, tasks
    {
      Snapshot(tasks) == r.tasks && printed == r.printed && exit == r.exit && file == FileAfter(r, oldFile)
    }

    /**
     * loadTasksFromDisk: the tasks of the file's readable lines, in order,
     * or none when there is no file (None).
     */
    constructor(stored: Option<seq<string>>)
      ensures Valid()
      ensures Snapshot(tasks) == (if stored.Some? then ParseLines(stored.value, ReadVerbatim) else [])
      ensures file == (if stored.Some? then stored.value else [])
    {
      var loaded: seq<Task<string>> := [];
      if stored.Some? {
        loaded := Load(stored.value, ReadVerbatim);
      }
      tasks := loaded;
      file := if stored.Some? then stored.value else [];
    }

    /** saveTasksToDisk, followed by the branch's reply. */
    method SaveAndReport(ghost ds: seq<Raw>, ghost p: Plan, report: seq<string>, saveError: Option<string>)
      returns (printed: seq<string>)
      requires p.Update? && p.tasks == Snapshot(tasks) && p.report == report
      modifies this
      ensures tasks == old(tasks)
      ensures Reflects(Commit(ds, p, saveError), old(file), printed, false)
    {
      ghost var r := Commit(ds, p, saveError);
      var lines := Save(tasks, Verbatim);
      if saveError.None? {
        file := lines;
        printed := report;
      } else {
        printed := [Bob.SaveFailure + saveError.value] + report;
      }
      assert Snapshot(tasks) == r.tasks && printed == r.printed;
    }

    /** The mark and unmark branches. */
    method HandleStatus(input: string, prefix: string, s: Status, header: string, saveError: Option<string>)
      returns (printed: seq<string>)
      requires Valid()
      modifies this, tasks
      ensures Valid()
      ensures fresh(set t | t in tasks && t !in old(tasks))
      ensures Reflects(Commit(old(Snapshot(tasks)), StatusPlan(old(Snapshot(tasks)), input, prefix, s, header), saveError),
                       old(file), printed, false)
    {
      var index := ParseIndexUnchecked(input, prefix);
      printed := SetStatusAndReport(index, s, header, saveError);
    }

    /** A number out of range is refused; otherwise the task's status is set, the list saved and the task printed. */
    method SetStatusAndReport(index: int, s: Status, header: string, saveError: Option<string>)
      returns (printed: seq<string>)
      requires Valid()
      modifies this, tasks
      ensures Valid()
      ensures fresh(set t | t in tasks && t !in old(tasks))
      ensures Reflects(Commit(old(Snapshot(tasks)), StatusAt(old(Snapshot(tasks)), index, s, header), saveError),
                       old(file), printed, false)
    {
      ghost var before := Snapshot(tasks);
      if !(0 <= index < |tasks|) {
        return Framed([Bob.TaskNotFoundError]);
      }
      var task := SetStatusAt(index, s);
      printed := SaveAndReport(before, StatusAt(before, index, s, header), Framed([header, "  " + Show(task.Data())]), saveError);
    }

    /** tasks.get(idx) and the assignment to its status. */
    method SetStatusAt(index: int, s: Status) returns (task: Task<string>)
      requires Valid() && 0 <= index < |tasks|
      modifies tasks
      ensures unchanged(this)
      ensures var d := old(Snapshot(tasks))[index].(status := s);
        task.Data() == d && Snapshot(tasks) == old(Snapshot(tasks))[index := d]
    {
      ghost var before := Snapshot(tasks);
      task := tasks[index];
      task.SetStatus(s);
      ghost var after := before[index := task.Data()];
      forall k | 0 <= k < |tasks|
        ensures tasks[k].Data() == after[k]
      {
        if k != index {
          assert tasks[k] != task;
        }
      }
      SnapshotPointwise(tasks, after);
    }

    /** The delete branch. */
    method HandleDelete(input: string, saveError: Option<string>) returns (printed: seq<string>)
      requires Valid()
      modifies this
      ensures Valid()
      ensures fresh(set t | t in tasks && t !in old(tasks))
      ensures Reflects(Commit(old(Snapshot(tasks)), DeletePlan(old(Snapshot(tasks)), input), saveError),
                       old(file), printed, false)
    {
      var index := ParseIndexUnchecked(input, DeletePrefix);
      if !(0 <= index < |tasks|) {
        return Framed([Bob.TaskNotFoundError]);
      }
      printed := RemoveAt(index, Snapshot(tasks), saveError);
    }

    /** tasks.remove(idx), then the save and the reply that counts what is left. */
    method RemoveAt(index: int, ghost ds: seq<Raw>, saveError: Option<string>) returns (printed: seq<string>)
      requires Valid() && 0 <= index < |tasks| && Snapshot(tasks) == ds
      modifies this
      ensures Valid()
      ensures fresh(set t | t in tasks && t !in old(tasks))
      ensures Reflects(Commit(ds, DeleteAt(ds, index), saveError), old(file), printed, false)
    {
      var removed := tasks[index];
      SnapshotRemove(tasks, index);
      DistinctRemove(tasks, index);
      tasks := tasks[..index] + tasks[index + 1..];
      var report := Framed([RemovedHeader, "  " + Show(removed.Data()), CountLine(|tasks|)]);
      printed := SaveAndReport(ds, DeleteAt(ds, index), report, saveError);
    }

    /** tasks.add(t), then the save and printAdded. */
    method Append(task: Task<string>, ghost ds: seq<Raw>, ghost d: Raw, saveError: Option<string>)
      returns (printed: seq<string>)
      requires Valid() && task !in tasks && Snapshot(tasks) == ds && task.Data() == d
      modifies this
      ensures Valid()
      ensures forall t :: t in tasks ==> t in old(tasks) || t == task
      ensures Reflects(Commit(ds, AddPlan(ds, d), saveError), old(file), printed, false)
    {
      SnapshotAppend(tasks, [task]);
      DistinctAppend(tasks, task);
      tasks := tasks + [task];
      assert Snapshot(tasks) == ds + [d] && |tasks| == |ds| + 1;
      var report := Framed([AddedHeader, "  " + Show(task.Data()), CountLine(|tasks|)]);
      printed := SaveAndReport(ds, AddPlan(ds, d), report, saveError);
    }

    /** The end of the todo, deadline and event branches: a refused line is printed as an error, otherwise a new task is added. */
    method AddTask(outcome: Outcome<Raw>, saveError: Option<string>) returns (printed: seq<string>)
      requires Valid()
      modifies this
      ensures Valid()
      ensures fresh(set t | t in tasks && t !in old(tasks))
      ensures Reflects(Commit(old(Snapshot(tasks)), AddOrRefuse(old(Snapshot(tasks)), outcome), saveError),
                       old(file), printed, false)
    {
      ghost var before := Snapshot(tasks);
      if outcome.Failure? {
        return Framed([outcome.message]);
      }
      var task := NewTask(outcome.value);
      printed := Append(task, before, outcome.value, saveError);
    }

    /** The branches that change the list and save it. */
    method HandleChange(input: string, c: Bob.Command, saveError: Option<string>) returns (printed: seq<string>)
      requires Valid() && c == Classify(input) && Bob.Mutates(c)
      modifies this, tasks
      ensures Valid()
      ensures fresh(set t | t in tasks && t !in old(tasks))
      ensures Reflects(Commit(old(Snapshot(tasks)), ChangePlan(old(Snapshot(tasks)), input, c), saveError),
                       old(file), printed, false)
    {
      if c == Bob.MarkCommand {
        printed := HandleStatus(input, MarkPrefix, Done, MarkedHeader, saveError);
      } else if c == Bob.UnmarkCommand {
        printed := HandleStatus(input, UnmarkPrefix, NotDone, UnmarkedHeader, saveError);
      } else if c == Bob.DeleteCommand {
        printed := HandleDelete(input, saveError);
      } else if c == Bob.TodoCommand {
        printed := AddTask(TodoTask(input), saveError);
      } else if c == Bob.DeadlineCommand {
        printed := AddTask(DeadlineTask(input), saveError);
      } else {
        printed := AddTask(EventTask(input), saveError);
      }
    }

    /** The list branch's loop: one numbered line per task, between the header and the divider. */
    method PrintList() returns (printed: seq<string>)
      ensures printed == ListLines(Snapshot(tasks))
    {
      // The loop and the lemma after it need only the names of these, not their bodies.
      hide Entry, Numbered, Framed;
      ghost var ds := Snapshot(tasks);
      var lines: seq<string> := [];
      var i := 0;
      while i < |tasks|
        invariant 0 <= i <= |tasks|
        invariant |lines| == i && forall k :: 0 <= k < i ==> lines[k] == Entry(k + 1, ds[k])
      {
        assert tasks[i].Data() == ds[i];
        lines := lines + [Entry(i + 1, tasks[i].Data())];
        i := i + 1;
      }
      NumberedPointwise(ds, lines);
      printed := Framed([ListHeader] + lines);
    }

    /** The branches that only print. */
    method Answer(c: Bob.Command) returns (printed: seq<string>)
      ensures printed == AnswerLines(Snapshot(tasks), c)
    {
      if c == Bob.ByeCommand {
        printed := Framed([ByeText]);
      } else if c == Bob.ListCommand {
        printed := PrintList();
      } else {
        printed := Framed([Bob.Refusal(c)]);
      }
    }

    /**
     * main's loop: each line is handled in turn, with the outcome of its
     * save, until "bye" or the end of the input.
     */
    method Loop(lines: seq<string>, saveErrors: seq<Option<string>>) returns (printed: seq<string>, ended: bool)
      requires Valid() && |saveErrors| == |lines|
      modifies this, tasks
      ensures Valid()
      ensures fresh(set t | t in tasks && t !in old(tasks))
      ensures RunLines(Step, old(Snapshot(tasks)), old(file), lines, saveErrors) == Transcript(Snapshot(tasks), file, printed, ended)
    {
      // The loop needs only Next's contract, not what a pass does.
      hide Step;
      ghost var whole := RunLines(Step, Snapshot(tasks), file, lines, saveErrors);
      Start(Step, Snapshot(tasks), file, lines, saveErrors);
      printed, ended := [], false;
      var i: nat := 0;
      while i < |lines| && !ended
        invariant Valid() && fresh(set t | t in tasks && t !in old(tasks))
        invariant RunsAs(Step, whole, Snapshot(tasks), file, printed, ended, lines, saveErrors, i)
      {
        printed, ended := Next(lines, saveErrors, i, whole, printed);
        i := i + 1;
      }
      Finish(Step, whole, Snapshot(tasks), file, printed, ended, lines, saveErrors, i);
    }

    /** One turn of main's loop: line i is handled and its lines added to what was printed. */
    method Next(lines: seq<string>, saveErrors: seq<Option<string>>, i: nat, ghost whole: Transcript, printed: seq<string>)
      returns (printedNow: seq<string>, ended: bool)
      requires Valid() && i < |lines| && RunsAs(Step, whole, Snapshot(tasks), file, printed, false, lines, saveErrors, i)
      modifies this, tasks
      ensures Valid() && fresh(set t | t in tasks && t !in old(tasks))
      ensures RunsAs(Step, whole, Snapshot(tasks), file, printedNow, ended, lines, saveErrors, i + 1)
    {
      Advance(Step, whole, Snapshot(tasks), file, printed, lines, saveErrors, i);
      var out, exit := Handle(lines[i], saveErrors[i]);
      printedNow, ended := printed + out, exit;
    }

    /** One pass of main's loop: the line is trimmed and carried out as Step says. */
    method Handle(line: string, saveError: Option<string>) returns (printed: seq<string>, exit: bool)
      requires Valid()
      modifies this, tasks
      ensures Valid()
      ensures fresh(set t | t in tasks && t !in old(tasks))
      ensures Reflects(Step(old(Snapshot(tasks)), line, saveError), old(file), printed, exit)
    {
      var input := Trim(line);
      var c := Classify(input);
      if Bob.Mutates(c) {
        printed := HandleChange(input, c, saveError);
        exit := false;
      } else {
        printed := Answer(c);
        exit := c == Bob.ByeCommand;
      }
    }
  }
}
