/**
 * bob.Bob: the command processor. processCommand recognises the command
 * word, the handle* methods parse the rest, change the task list and save
 * it, and every command ends in a CommandResult.
 *
 * The step is specified twice: Step is a function over the values of the
 * tasks, and the class Bob carries out the same step on task objects; the
 * method ProcessCommand is proved to do what Step says. Saving is the one
 * outside effect: its outcome is a parameter (None when the file was written,
 * Some(reason) when the write threw an IOException), and the field file holds
 * the lines of the last save that went through.
 */
module Bob {
  import opened Options
  import opened Strings
  import opened DateTimeUtil
  import opened Tasks
  import opened TaskLists
  import opened Parser
  import opened Storage
  import opened Commands

  type Data = TaskData<Timestamp>

  const TaskNotFoundError := "WRONG!!! That task number does not exist."
  const DeleteSpecifyError := "WRONG!!! Please specify a task number to delete."
  const TodoDescriptionError := "WRONG!!! Add a description for your todo."
  const DeadlineDescriptionError := "WRONG!!! Add a description for your deadline task."
  const EventDescriptionError := "WRONG!!! Add a description for your event."
  const FindKeywordError := "WRONG!!! Please specify a keyword to search for."
  const EventEndAfterStartError := "WRONG!!! Event end time must be after start time."

  /** The prefix of the reply to a refused argument parse. */
  const Wrong := "WRONG!!! "
  /** The prefix saveTasks puts before the IOException's message. */
  const SaveFailure := "Could not save tasks: "

  const MarkedText := "Nice! I've marked this task as done:\n  "
  const UnmarkedText := "OK, I've marked this task as not done yet:\n  "
  const RemovedText := "Noted. I've removed this task:\n  "
  const AddedText := "Got it. I've added this task:\n  "

  /** A task's toString in the bob package. */
  function Show(d: Data): string {
    Display(d, FormatForDisplay)
  }

  /** The line that reports the size of the list. */
  function CountText(n: nat): string {
    "\nNow you have " + NatToString(n) + " tasks in the list."
  }

  // ---------------------------------------------------------------- processCommand's dispatch

  /** Which branch of processCommand an input line takes. */
  datatype Command =
    | ByeCommand | ListCommand | MarkCommand | UnmarkCommand
    | BareDelete | DeleteCommand | BareTodo | TodoCommand
    | BareDeadline | DeadlineCommand | BareEvent | EventCommand
    | BareFind | FindCommand | OnCommand | UnknownCommand

  /**
   * The if-chain of processCommand, in its order: "bye" in any letter case,
   * then exact words and case-sensitive prefixes.
   */
  function Dispatch(input: string): (c: Command)
    ensures c == ByeCommand <==> EqualsIgnoreCase(input, "bye")
    ensures c == MarkCommand ==> StartsWith(input, MarkPrefix)
    ensures c == UnmarkCommand ==> StartsWith(input, UnmarkPrefix)
    ensures c == DeleteCommand ==> StartsWith(input, DeletePrefix)
    ensures c == TodoCommand ==> StartsWith(input, TodoPrefix)
    ensures c == DeadlineCommand ==> StartsWith(input, DeadlinePrefix)
    ensures c == EventCommand ==> StartsWith(input, EventPrefix)
    ensures c == FindCommand ==> StartsWith(input, FindPrefix)
    ensures c == OnCommand ==> StartsWith(input, OnPrefix)
  {
    if EqualsIgnoreCase(input, "bye") then ByeCommand
    else if input == "list" then ListCommand
    else if StartsWith(input, MarkPrefix) then MarkCommand
    else if StartsWith(input, UnmarkPrefix) then UnmarkCommand
    else if input == "delete" then BareDelete
    else if StartsWith(input, DeletePrefix) then DeleteCommand
    else if input == "todo" then BareTodo
    else if StartsWith(input, TodoPrefix) then TodoCommand
    else if input == "deadline" then BareDeadline
    else if StartsWith(input, DeadlinePrefix) then DeadlineCommand
    else if input == "event" then BareEvent
    else if StartsWith(input, EventPrefix) then EventCommand
    else if input == "find" then BareFind
    else if StartsWith(input, FindPrefix) then FindCommand
    else if StartsWith(input, OnPrefix) then OnCommand
    else UnknownCommand
  }

  /** The commands that change the list and then save it. */
  predicate Mutates(c: Command) {
    c in {MarkCommand, UnmarkCommand, DeleteCommand, TodoCommand, DeadlineCommand, EventCommand}
  }

  // ---------------------------------------------------------------- one step over values

  /**
   * What a handler decides before it saves: a new list of tasks and the
   * message that reports it, or a reply that changes nothing.
   */
  datatype Plan = Update(tasks: seq<Data>, text: string) | Reply(result: CommandResult<Data>)

  /** handleMark and handleUnmark once the number is read: set the status of that task. */
  function StatusAt(ds: seq<Data>, index: int, s: Status, text: string): Plan {
    if !(0 <= index < |ds|) then Reply(Error(TaskNotFoundError))
    else
      var d := ds[index].(status := s);
      Update(ds[index := d], text + Show(d))
  }

  /** handleMark and handleUnmark: set the status of the numbered task. */
  function StatusPlan(ds: seq<Data>, input: string, prefix: string, s: Status, text: string): Plan
    requires StartsWith(input, prefix)
  {
    StatusAt(ds, ParseIndex(input, prefix), s, text)
  }

  /** handleDelete once the number is read: remove that task and report the new size. */
  function DeleteAt(ds: seq<Data>, index: int): Plan {
    if !(0 <= index < |ds|) then Reply(Error(TaskNotFoundError))
    else
      var rest := ds[..index] + ds[index + 1..];
      Update(rest, RemovedText + Show(ds[index]) + CountText(|rest|))
  }

  /** handleDelete: remove the numbered task and report the new size. */
  function DeletePlan(ds: seq<Data>, input: string): Plan
    requires StartsWith(input, DeletePrefix)
  {
    DeleteAt(ds, ParseIndex(input, DeletePrefix))
  }

  /** The end of handleTodo, handleDeadline and handleEvent: append the new task and report the new size. */
  function AddPlan(ds: seq<Data>, d: Data): Plan {
    Update(ds + [d], AddedText + Show(d) + CountText(|ds| + 1))
  }

  /**
   * handleTodo, handleDeadline and handleEvent: a refused line is answered
   * with its error, an accepted one adds its task.
   */
  function AddOrRefuse(ds: seq<Data>, o: Outcome<Data>): Plan {
    match o
    case Failure(message) => Reply(Error(message))
    case Success(d) => AddPlan(ds, d)
  }

  /** handleTodo up to the new task: the todo, or the reply refusing the line. */
  function TodoTask(input: string): (r: Outcome<Data>)
    requires StartsWith(input, TodoPrefix)
    ensures r.Success? ==> r.value.kind.Todo? && r.value.status == NotDone
  {
    var description := ParseTodoDescription(input);
    if description == [] then Failure(TodoDescriptionError)
    else Success(TaskData(Kind.Todo, description, NotDone))
  }

  /** handleTodo. */
  function TodoPlan(ds: seq<Data>, input: string): Plan
    requires StartsWith(input, TodoPrefix)
  {
    AddOrRefuse(ds, TodoTask(input))
  }

  /** handleDeadline up to the new task: a refused parse, then an unreadable time, are reported in that order. */
  function DeadlineTask(input: string): (r: Outcome<Data>)
    requires StartsWith(input, DeadlinePrefix)
    ensures r.Success? ==> r.value.kind.Deadline? && r.value.status == NotDone
  {
    match ParseDeadlineArgs(input)
    case Failure(message) => Failure(Wrong + message)
    case Success(args) =>
      match ParseUserDateTime(args.due)
      case None => Failure(DateTimeFormatHint)
      case Some(due) => Success(TaskData(Kind.Deadline(due), args.description, NotDone))
  }

  /** handleDeadline. */
  function DeadlinePlan(ds: seq<Data>, input: string): Plan
    requires StartsWith(input, DeadlinePrefix)
  {
    AddOrRefuse(ds, DeadlineTask(input))
  }

  /** handleEvent up to the new task: both times are read before their order is checked. */
  function EventTask(input: string): (r: Outcome<Data>)
    requires StartsWith(input, EventPrefix)
    ensures r.Success? ==> r.value.kind.Event? && r.value.status == NotDone
  {
    match ParseEventArgs(input)
    case Failure(message) => Failure(Wrong + message)
    case Success(args) =>
      var from, to := ParseUserDateTime(args.from), ParseUserDateTime(args.to);
      if from.None? || to.None? then Failure(DateTimeFormatHint)
      else if IsBefore(to.value, from.value) then Failure(EventEndAfterStartError)
      else Success(TaskData(Kind.Event(from.value, to.value), args.description, NotDone))
  }

  /** handleEvent. */
  function EventPlan(ds: seq<Data>, input: string): Plan
    requires StartsWith(input, EventPrefix)
  {
    AddOrRefuse(ds, EventTask(input))
  }

  /** handleFind: the tasks whose description contains the keyword, ignoring case. */
  function FindResult(ds: seq<Data>, input: string): CommandResult<Data>
    requires StartsWith(input, FindPrefix)
  {
    MatchingTasks(SelectData(ds, Keyword(ParseFindKeyword(input))))
  }

  /** handleOn: an unreadable date is refused, otherwise the tasks on that date. */
  function OnResult(ds: seq<Data>, input: string): CommandResult<Data>
    requires StartsWith(input, OnPrefix)
  {
    match ParseOnDate(input)
    case None => Error(DateFormatHint)
    case Some(date) => TasksOnDate(date, SelectData(ds, OnDate(date)))
  }

  /** The branches of processCommand for the commands that change the list. */
  function ChangePlan(ds: seq<Data>, input: string, c: Command): Plan
    requires c == Dispatch(input) && Mutates(c)
  {
    if c == MarkCommand then StatusPlan(ds, input, MarkPrefix, Done, MarkedText)
    else if c == UnmarkCommand then StatusPlan(ds, input, UnmarkPrefix, NotDone, UnmarkedText)
    else if c == DeleteCommand then DeletePlan(ds, input)
    else if c == TodoCommand then TodoPlan(ds, input)
    else if c == DeadlineCommand then DeadlinePlan(ds, input)
    else EventPlan(ds, input)
  }

  /** The error processCommand answers to a command word typed alone, or to a line it does not know. */
  function Refusal(c: Command): string {
    match c
    case BareDelete => DeleteSpecifyError
    case BareTodo => TodoDescriptionError
    case BareDeadline => DeadlineDescriptionError
    case BareEvent => EventDescriptionError
    case BareFind => FindKeywordError
    case _ => UnknownCommandError
  }

  /** The answers that need no argument: bye, list, and the refusals. */
  function PlainAnswer(ds: seq<Data>, c: Command): CommandResult<Data> {
    match c
    case ByeCommand => Exit
    case ListCommand => List(ds)
    case _ => Error(Refusal(c))
  }

  /** The branches of processCommand that only answer. */
  function Answer(ds: seq<Data>, input: string, c: Command): CommandResult<Data>
    requires c == Dispatch(input) && !Mutates(c)
  {
    match c
    case FindCommand => FindResult(ds, input)
    case OnCommand => OnResult(ds, input)
    case _ => PlainAnswer(ds, c)
  }

  /** What processCommand decides for an input line, before anything is saved. */
  function PlanFor(ds: seq<Data>, input: string): Plan {
    var c := Dispatch(input);
    if Mutates(c) then ChangePlan(ds, input, c) else Reply(Answer(ds, input, c))
  }

  /** What one command did: the tasks after it, its result, and whether the save went through. */
  datatype Effect = Effect(tasks: seq<Data>, result: CommandResult<Data>, saved: bool)

  /**
   * saveTasks and the handler's last lines: an update is kept whether or not
   * it could be saved; the reply is its message, or the reason the save failed.
   */
  function Commit(ds: seq<Data>, p: Plan, saveError: Option<string>): (e: Effect)
    ensures p.Reply? ==> e == Effect(ds, p.result, false)
    ensures p.Update? ==> e.tasks == p.tasks && (e.saved <==> saveError.None?)
    ensures p.Update? && saveError.None? ==> e.result == Message(p.text)
    ensures p.Update? && saveError.Some? ==> e.result == Error(SaveFailure + saveError.value)
  {
    match p
    case Reply(result) => Effect(ds, result, false)
    case Update(tasks, text) =>
      if saveError.None? then Effect(tasks, Message(text), true)
      else Effect(tasks, Error(SaveFailure + saveError.value), false)
  }

  /** processCommand on the values of the tasks. */
  function Step(ds: seq<Data>, input: string, saveError: Option<string>): Effect {
    Commit(ds, PlanFor(ds, input), saveError)
  }

  // ---------------------------------------------------------------- what a step does

  /** Every command prefix leads to its own handler, whatever follows it. */
  lemma PrefixesReachHandlers(input: string)
    ensures StartsWith(input, MarkPrefix) ==> Dispatch(input) == MarkCommand
    ensures StartsWith(input, UnmarkPrefix) ==> Dispatch(input) == UnmarkCommand
    ensures StartsWith(input, DeletePrefix) ==> Dispatch(input) == DeleteCommand
    ensures StartsWith(input, TodoPrefix) ==> Dispatch(input) == TodoCommand
    ensures StartsWith(input, DeadlinePrefix) ==> Dispatch(input) == DeadlineCommand
    ensures StartsWith(input, EventPrefix) ==> Dispatch(input) == EventCommand
    ensures StartsWith(input, FindPrefix) ==> Dispatch(input) == FindCommand
    ensures StartsWith(input, OnPrefix) ==> Dispatch(input) == OnCommand
  {
    if StartsWith(input, MarkPrefix) { ReachesMark(input); }
    if StartsWith(input, UnmarkPrefix) { ReachesUnmark(input); }
    if StartsWith(input, DeletePrefix) { ReachesDelete(input); }
    if StartsWith(input, TodoPrefix) { ReachesTodo(input); }
    if StartsWith(input, DeadlinePrefix) { ReachesDeadline(input); }
    if StartsWith(input, EventPrefix) { ReachesEvent(input); }
    if StartsWith(input, FindPrefix) { ReachesFind(input); }
    if StartsWith(input, OnPrefix) { ReachesOn(input); }
  }

  lemma ReachesMark(s: string)
    requires StartsWith(s, MarkPrefix)
    ensures Dispatch(s) == MarkCommand
  {
    EqualsIgnoreCaseBye(s);
    assert s[..|MarkPrefix|][0] == s[0];
  }

  lemma ReachesUnmark(s: string)
    requires StartsWith(s, UnmarkPrefix)
    ensures Dispatch(s) == UnmarkCommand
  {
    EqualsIgnoreCaseBye(s);
    PrefixExcludes(s, UnmarkPrefix, MarkPrefix, 0);
  }

  lemma ReachesDelete(s: string)
    requires StartsWith(s, DeletePrefix)
    ensures Dispatch(s) == DeleteCommand
  {
    EqualsIgnoreCaseBye(s);
    PrefixExcludes(s, DeletePrefix, MarkPrefix, 0);
    PrefixExcludes(s, DeletePrefix, UnmarkPrefix, 0);
  }

  lemma ReachesTodo(s: string)
    requires StartsWith(s, TodoPrefix)
    ensures Dispatch(s) == TodoCommand
  {
    EqualsIgnoreCaseBye(s);
    PrefixExcludes(s, TodoPrefix, MarkPrefix, 0);
    PrefixExcludes(s, TodoPrefix, UnmarkPrefix, 0);
    PrefixExcludes(s, TodoPrefix, DeletePrefix, 0);
  }

  lemma ReachesDeadline(s: string)
    requires StartsWith(s, DeadlinePrefix)
    ensures Dispatch(s) == DeadlineCommand
  {
    EqualsIgnoreCaseBye(s);
    PrefixExcludes(s, DeadlinePrefix, MarkPrefix, 0);
    PrefixExcludes(s, DeadlinePrefix, UnmarkPrefix, 0);
    PrefixExcludes(s, DeadlinePrefix, DeletePrefix, 2);
    PrefixExcludes(s, DeadlinePrefix, TodoPrefix, 0);
  }

  lemma ReachesEvent(s: string)
    requires StartsWith(s, EventPrefix)
    ensures Dispatch(s) == EventCommand
  {
    EqualsIgnoreCaseBye(s);
    PrefixExcludes(s, EventPrefix, MarkPrefix, 0);
    PrefixExcludes(s, EventPrefix, UnmarkPrefix, 0);
    PrefixExcludes(s, EventPrefix, DeletePrefix, 0);
    PrefixExcludes(s, EventPrefix, TodoPrefix, 0);
    PrefixExcludes(s, EventPrefix, DeadlinePrefix, 0);
  }

  lemma ReachesFind(s: string)
    requires StartsWith(s, FindPrefix)
    ensures Dispatch(s) == FindCommand
  {
    EqualsIgnoreCaseBye(s);
    PrefixExcludes(s, FindPrefix, MarkPrefix, 0);
    PrefixExcludes(s, FindPrefix, UnmarkPrefix, 0);
    PrefixExcludes(s, FindPrefix, DeletePrefix, 0);
    PrefixExcludes(s, FindPrefix, TodoPrefix, 0);
    PrefixExcludes(s, FindPrefix, DeadlinePrefix, 0);
    PrefixExcludes(s, FindPrefix, EventPrefix, 0);
  }

  lemma ReachesOn(s: string)
    requires StartsWith(s, OnPrefix)
    ensures Dispatch(s) == OnCommand
  {
    EqualsIgnoreCaseBye(s);
    PrefixExcludes(s, OnPrefix, MarkPrefix, 0);
    PrefixExcludes(s, OnPrefix, UnmarkPrefix, 0);
    PrefixExcludes(s, OnPrefix, DeletePrefix, 0);
    PrefixExcludes(s, OnPrefix, TodoPrefix, 0);
    PrefixExcludes(s, OnPrefix, DeadlinePrefix, 0);
    PrefixExcludes(s, OnPrefix, EventPrefix, 0);
    PrefixExcludes(s, OnPrefix, FindPrefix, 0);
  }

  /** A line that starts with p does not start with a q that differs from p at position k. */
  lemma PrefixExcludes(s: string, p: string, q: string, k: nat)
    requires StartsWith(s, p) && k < |p| && k < |q| && p[k] != q[k]
    ensures !StartsWith(s, q)
  {
    assert s[..|p|][k] == s[k];
    DiffersAt(s, q, k);
  }

  /** A line that starts with a capital letter, other than some spelling of "bye", is an unknown command. */
  lemma CommandWordsAreCaseSensitive(input: string)
    requires input != [] && 'A' <= input[0] <= 'Z' && !EqualsIgnoreCase(input, "bye")
    ensures Dispatch(input) == UnknownCommand
  {
    DiffersAt(input, MarkPrefix, 0);
    DiffersAt(input, UnmarkPrefix, 0);
    DiffersAt(input, DeletePrefix, 0);
    DiffersAt(input, TodoPrefix, 0);
    DiffersAt(input, DeadlinePrefix, 0);
    DiffersAt(input, EventPrefix, 0);
    DiffersAt(input, FindPrefix, 0);
    DiffersAt(input, OnPrefix, 0);
  }

  /** "bye" in any letter case ends the session, changes nothing and saves nothing; no other line does. */
  lemma ByeExits(ds: seq<Data>, input: string, saveError: Option<string>)
    ensures Step(ds, input, saveError).result == Exit <==> EqualsIgnoreCase(input, "bye")
    ensures EqualsIgnoreCase(input, "bye") ==> Step(ds, input, saveError) == Effect(ds, Exit, false)
  {
    var c := Dispatch(input);
    if Mutates(c) {
      ChangesUpdateOrRefuse(ds, input, c);
    }
  }

  /** A command that changes the list either updates it or is refused with an error. */
  lemma ChangesUpdateOrRefuse(ds: seq<Data>, input: string, c: Command)
    requires c == Dispatch(input) && Mutates(c)
    ensures ChangePlan(ds, input, c).Reply? ==> ChangePlan(ds, input, c).result.Error?
  {
  }

  /** A line that does not change the list is answered, keeps the tasks and saves nothing. */
  lemma QueryStep(ds: seq<Data>, input: string, saveError: Option<string>)
    requires !Mutates(Dispatch(input))
    ensures Step(ds, input, saveError) == Effect(ds, Answer(ds, input, Dispatch(input)), false)
  {
  }

  /** A line that differs from prefix at position k does not start with it. */
  lemma DiffersAt(s: string, prefix: string, k: nat)
    requires k < |s| && k < |prefix| && s[k] != prefix[k]
    ensures !StartsWith(s, prefix)
  {
    if |prefix| <= |s| {
      assert s[..|prefix|][k] == s[k];
    }
  }

  /** "delete" alone asks for the number of the task to delete. Nothing changes and nothing is saved. */
  lemma DeleteAloneIsRefused(ds: seq<Data>, saveError: Option<string>)
    ensures Step(ds, "delete", saveError) == Effect(ds, Error(DeleteSpecifyError), false)
  {
    DispatchDelete();
    QueryStep(ds, "delete", saveError);
  }

  lemma DispatchDelete()
    ensures Dispatch("delete") == BareDelete
  {
    var w := "delete";
    EqualsIgnoreCaseBye(w);
    DiffersAt(w, MarkPrefix, 0);
    DiffersAt(w, UnmarkPrefix, 0);
  }

  /** "todo" alone asks for a description. Nothing changes and nothing is saved. */
  lemma TodoAloneIsRefused(ds: seq<Data>, saveError: Option<string>)
    ensures Step(ds, "todo", saveError) == Effect(ds, Error(TodoDescriptionError), false)
  {
    DispatchTodo();
    QueryStep(ds, "todo", saveError);
  }

  lemma DispatchTodo()
    ensures Dispatch("todo") == BareTodo
  {
    var w := "todo";
    EqualsIgnoreCaseBye(w);
    assert w[0] != "list"[0];
    DiffersAt(w, MarkPrefix, 0);
    DiffersAt(w, UnmarkPrefix, 0);
    DiffersAt(w, DeletePrefix, 0);
  }

  /** "deadline" alone asks for a description. Nothing changes and nothing is saved. */
  lemma DeadlineAloneIsRefused(ds: seq<Data>, saveError: Option<string>)
    ensures Step(ds, "deadline", saveError) == Effect(ds, Error(DeadlineDescriptionError), false)
  {
    DispatchDeadline();
    QueryStep(ds, "deadline", saveError);
  }

  lemma DispatchDeadline()
    ensures Dispatch("deadline") == BareDeadline
  {
    var w := "deadline";
    EqualsIgnoreCaseBye(w);
    DiffersAt(w, MarkPrefix, 0);
    DiffersAt(w, UnmarkPrefix, 0);
    DiffersAt(w, DeletePrefix, 2);
    DiffersAt(w, TodoPrefix, 0);
  }

  /** "event" alone asks for a description. Nothing changes and nothing is saved. */
  lemma EventAloneIsRefused(ds: seq<Data>, saveError: Option<string>)
    ensures Step(ds, "event", saveError) == Effect(ds, Error(EventDescriptionError), false)
  {
    DispatchEvent();
    QueryStep(ds, "event", saveError);
  }

  lemma DispatchEvent()
    ensures Dispatch("event") == BareEvent
  {
    var w := "event";
    EqualsIgnoreCaseBye(w);
    DiffersAt(w, MarkPrefix, 0);
    DiffersAt(w, UnmarkPrefix, 0);
    DiffersAt(w, DeletePrefix, 0);
    DiffersAt(w, TodoPrefix, 0);
    DiffersAt(w, DeadlinePrefix, 0);
  }

  /** "find" alone asks for a keyword. Nothing changes and nothing is saved. */
  lemma FindAloneIsRefused(ds: seq<Data>, saveError: Option<string>)
    ensures Step(ds, "find", saveError) == Effect(ds, Error(FindKeywordError), false)
  {
    DispatchFind();
    QueryStep(ds, "find", saveError);
  }

  lemma DispatchFind()
    ensures Dispatch("find") == BareFind
  {
    var w := "find";
    EqualsIgnoreCaseBye(w);
    assert w[0] != "list"[0];
    DiffersAt(w, MarkPrefix, 0);
    DiffersAt(w, UnmarkPrefix, 0);
    DiffersAt(w, DeletePrefix, 0);
    DiffersAt(w, TodoPrefix, 0);
    DiffersAt(w, DeadlinePrefix, 0);
    DiffersAt(w, EventPrefix, 0);
  }

  /** "mark" alone is not a command: only "mark " and a number is. Nothing changes and nothing is saved. */
  lemma MarkAloneIsRefused(ds: seq<Data>, saveError: Option<string>)
    ensures Step(ds, "mark", saveError) == Effect(ds, Error(UnknownCommandError), false)
  {
    DispatchMark();
    QueryStep(ds, "mark", saveError);
  }

  lemma DispatchMark()
    ensures Dispatch("mark") == UnknownCommand
  {
    var w := "mark";
    EqualsIgnoreCaseBye(w);
    assert w[0] != "list"[0];
    DiffersAt(w, UnmarkPrefix, 0);
    DiffersAt(w, DeletePrefix, 0);
    DiffersAt(w, TodoPrefix, 0);
    DiffersAt(w, DeadlinePrefix, 0);
    DiffersAt(w, EventPrefix, 0);
    DiffersAt(w, FindPrefix, 0);
    DiffersAt(w, OnPrefix, 0);
  }

  /** "unmark" alone is not a command: only "unmark " and a number is. Nothing changes and nothing is saved. */
  lemma UnmarkAloneIsRefused(ds: seq<Data>, saveError: Option<string>)
    ensures Step(ds, "unmark", saveError) == Effect(ds, Error(UnknownCommandError), false)
  {
    DispatchUnmark();
    QueryStep(ds, "unmark", saveError);
  }

  lemma DispatchUnmark()
    ensures Dispatch("unmark") == UnknownCommand
  {
    var w := "unmark";
    EqualsIgnoreCaseBye(w);
    DiffersAt(w, MarkPrefix, 0);
    DiffersAt(w, DeletePrefix, 0);
    DiffersAt(w, TodoPrefix, 0);
    DiffersAt(w, DeadlinePrefix, 0);
    DiffersAt(w, EventPrefix, 0);
    DiffersAt(w, FindPrefix, 0);
    DiffersAt(w, OnPrefix, 0);
  }

  /** A failed save is reported, and the change it was meant to keep stays in the list all the same. */
  lemma SaveFailureKeepsChange(ds: seq<Data>, input: string, reason: string)
    ensures Step(ds, input, Some(reason)).tasks == Step(ds, input, None).tasks
    ensures !Step(ds, input, Some(reason)).saved
    ensures Step(ds, input, None).saved ==> Step(ds, input, Some(reason)).result == Error(SaveFailure + reason)
  {
  }

  /**
   * Only mark, unmark, delete, todo, deadline and event change the list or
   * save it, and every change they make is saved unless the save fails.
   */
  lemma OnlyChangesAreSaved(ds: seq<Data>, input: string, saveError: Option<string>)
    ensures !Mutates(Dispatch(input)) ==> Step(ds, input, saveError) == Effect(ds, Step(ds, input, saveError).result, false)
    ensures Step(ds, input, saveError).tasks != ds && saveError.None? ==> Step(ds, input, saveError).saved
  {
  }

  /** mark and unmark with a valid number set that task's status and change nothing else; any other number is refused. */
  lemma StatusChangesOnlyThatTask(ds: seq<Data>, input: string, prefix: string, s: Status, text: string)
    requires StartsWith(input, prefix)
    ensures var r, i := StatusPlan(ds, input, prefix, s, text), ParseIndex(input, prefix);
      (r.Reply? <==> !(0 <= i < |ds|)) &&
      (r.Reply? ==> r.result == Error(TaskNotFoundError)) &&
      (r.Update? ==>
        |r.tasks| == |ds| && r.tasks[i].status == s &&
        r.tasks[i].kind == ds[i].kind && r.tasks[i].description == ds[i].description &&
        (forall j :: 0 <= j < |ds| && j != i ==> r.tasks[j] == ds[j]) &&
        r.text == text + Show(r.tasks[i]))
  {
  }

  /** delete with a valid number removes exactly that task and reports what is left; any other number is refused. */
  lemma DeleteRemovesThatTask(ds: seq<Data>, input: string)
    requires StartsWith(input, DeletePrefix)
    ensures var r, i := DeletePlan(ds, input), ParseIndex(input, DeletePrefix);
      (r.Reply? <==> !(0 <= i < |ds|)) &&
      (r.Reply? ==> r.result == Error(TaskNotFoundError)) &&
      (r.Update? ==>
        |r.tasks| == |ds| - 1 && r.tasks[..i] == ds[..i] &&
        (forall j :: i <= j < |r.tasks| ==> r.tasks[j] == ds[j + 1]) &&
        r.text == RemovedText + Show(ds[i]) + CountText(|r.tasks|))
  {
    var i := ParseIndex(input, DeletePrefix);
    if 0 <= i < |ds| {
      assert (ds[..i] + ds[i + 1..])[..i] == ds[..i];
    }
  }

  /** A new task goes after all the others, which keep their places, and the reply counts it. */
  lemma AddPlanAppends(ds: seq<Data>, d: Data)
    ensures var r := AddPlan(ds, d);
      |r.tasks| == |ds| + 1 && r.tasks[..|ds|] == ds && r.tasks[|ds|] == d &&
      r.text == AddedText + Show(d) + CountText(|r.tasks|)
  {
    assert (ds + [d])[..|ds|] == ds;
  }

  /** todo adds a task exactly when its trimmed description is not empty; the task is a todo, not done. */
  lemma TodoNeedsDescription(ds: seq<Data>, input: string)
    requires StartsWith(input, TodoPrefix)
    ensures var r, description := TodoPlan(ds, input), ParseTodoDescription(input);
      (description == [] ==> r == Reply(Error(TodoDescriptionError))) &&
      (description != [] ==> r == AddPlan(ds, TaskData(Kind.Todo, description, NotDone)))
  {
  }

  /**
   * deadline reports a refused parse first and an unreadable time second;
   * otherwise it adds a deadline, not done, due at the time it read.
   */
  lemma DeadlineNeedsReadableTime(ds: seq<Data>, input: string)
    requires StartsWith(input, DeadlinePrefix)
    ensures var r, args := DeadlinePlan(ds, input), ParseDeadlineArgs(input);
      (args.Failure? ==> r == Reply(Error(Wrong + args.message))) &&
      (args.Success? ==>
        var due := ParseUserDateTime(args.value.due);
        (due.None? ==> r == Reply(Error(DateTimeFormatHint))) &&
        (due.Some? ==> r == AddPlan(ds, TaskData(Kind.Deadline(due.value), args.value.description, NotDone))))
  {
  }

  /**
   * Once both times of an event are read, the event is added exactly when
   * its end is not before its start (an end equal to the start is accepted);
   * an unreadable time is refused with the date/time hint, whatever the order.
   */
  lemma EventOrderDecides(ds: seq<Data>, input: string)
    requires StartsWith(input, EventPrefix)
    ensures var r, args := EventPlan(ds, input), ParseEventArgs(input);
      (args.Failure? ==> r == Reply(Error(Wrong + args.message))) &&
      (args.Success? ==>
        var from, to := ParseUserDateTime(args.value.from), ParseUserDateTime(args.value.to);
        (from.None? || to.None? ==> r == Reply(Error(DateTimeFormatHint))) &&
        (from.Some? && to.Some? && IsBefore(to.value, from.value) ==> r == Reply(Error(EventEndAfterStartError))) &&
        (from.Some? && to.Some? && !IsBefore(to.value, from.value) ==>
          r == AddPlan(ds, TaskData(Kind.Event(from.value, to.value), args.value.description, NotDone))))
  {
  }

  /** The lines a save writes read back as the same tasks, when no description could confuse the split. */
  lemma SavedTasksReload(ds: seq<Data>)
    requires forall i :: 0 <= i < |ds| ==> CleanField(ds[i].description)
    ensures ParseLines(FormatLines(ds, FormatStorage), ParseStorage) == ds
  {
    forall i | 0 <= i < |ds|
      ensures Storable(ds[i], FormatStorage, ParseStorage)
    {
      TimestampTaskStorable(ds[i]);
    }
    SaveThenLoad(ds, FormatStorage, ParseStorage);
  }

  // ---------------------------------------------------------------- the reply texts

  /** One line of a numbered list: "n." and the task as show writes it. */
  function Entry<T>(n: nat, d: T, show: T -> string): string {
    NatToString(n) + "." + show(d) + "\n"
  }

  /** The numbered lines of a list, starting at number n. */
  function Entries<T>(ds: seq<T>, n: nat, show: T -> string): string
    decreases |ds|
  {
    if ds == [] then [] else Entry(n, ds[0], show) + Entries(ds[1..], n + 1, show)
  }

  /** formatNumberedList: the header, then task i numbered i + 1, one per line, trimmed. */
  function NumberedList(header: string, ds: seq<Data>): string {
    Trim(header + "\n" + Entries(ds, 1, Show))
  }

  /** The lines of two lists one after the other are the lines of their concatenation, numbered on. */
  lemma {:induction false} EntriesSplit<T>(a: seq<T>, b: seq<T>, n: nat, show: T -> string)
    ensures Entries(a + b, n, show) == Entries(a, n, show) + Entries(b, n + |a|, show)
    decreases |a|
  {
    if a == [] {
      assert a + b == b;
    } else {
      assert (a + b)[1..] == a[1..] + b;
      EntriesSplit(a[1..], b, n + 1, show);
    }
  }

  /** Task k of the list is written on its own line as "k+1." and the task. */
  lemma NumberedEntry<T>(ds: seq<T>, k: nat, show: T -> string)
    requires k < |ds|
    ensures Entries(ds, 1, show) == Entries(ds[..k], 1, show) + Entry(k + 1, ds[k], show) + Entries(ds[k + 1..], k + 2, show)
  {
    var before, after := ds[..k], ds[k + 1..];
    assert ds == before + ([ds[k]] + after);
    EntriesSplit(before, [ds[k]] + after, 1, show);
    EntriesSplit([ds[k]], after, k + 1, show);
    EntriesOne(ds[k], k + 1, show);
    ConcatAssociates(Entries(before, 1, show), Entry(k + 1, ds[k], show), Entries(after, k + 2, show));
  }

  /** With no tasks, a trimmed header is the whole text. */
  lemma EmptyNumberedList(header: string)
    requires header != [] && IsTrimmed(header)
    ensures NumberedList(header, []) == header
  {
    assert header + "\n" + Entries([], 1, Show) == [] + header + "\n";
    TrimPadded([], header, "\n");
  }

  /** A one-task list is that task's line. */
  lemma EntriesOne<T>(d: T, n: nat, show: T -> string)
    ensures Entries([d], n, show) == Entry(n, d, show)
  {
    assert [d][1..] == [];
  }

  /** The lines of the first i + 1 tasks are those of the first i, then task i's line. */
  lemma EntriesSnoc<T>(ds: seq<T>, i: nat, show: T -> string)
    requires i < |ds|
    ensures Entries(ds[..i + 1], 1, show) == Entries(ds[..i], 1, show) + Entry(i + 1, ds[i], show)
  {
    assert ds[..i + 1] == ds[..i] + [ds[i]];
    EntriesSplit(ds[..i], [ds[i]], 1, show);
    EntriesOne(ds[i], i + 1, show);
  }

  /** formatNumberedList, building the text in a loop. */
  method FormatNumberedList(header: string, tasks: seq<Task<Timestamp>>) returns (text: string)
    ensures text == NumberedList(header, Snapshot(tasks))
  {
    ghost var ds := Snapshot(tasks);
    ghost var start := header + "\n";
    var sb := header + "\n";
    var i := 0;
    while i < |tasks|
      invariant 0 <= i <= |tasks|
      invariant sb == start + Entries(ds[..i], 1, Show)
    {
      EntriesSnoc(ds, i, Show);
      ConcatAssociates(start, Entries(ds[..i], 1, Show), Entry(i + 1, ds[i], Show));
      sb := sb + Entry(i + 1, tasks[i].Data(), Show);
      i := i + 1;
    }
    assert ds[..|tasks|] == ds;
    text := Trim(sb);
  }

  /** The header of the on-date reply. */
  function OnDateHeader(date: Date): string
    requires ValidDate(date)
  {
    "Here are the tasks occurring on " + FormatDateForDisplay(date) + ":"
  }

  /**
   * formatTasksOnDate: a numbered list under the header, or the header and
   * "No matching tasks."; NumberedEntry says where each task's line goes.
   */
  function TasksOnDateText(date: Date, ds: seq<Data>): string
    requires ValidDate(date)
  {
    if ds == [] then OnDateHeader(date) + "\nNo matching tasks." else NumberedList(OnDateHeader(date), ds)
  }

  method FormatTasksOnDate(date: Date, tasks: seq<Task<Timestamp>>) returns (text: string)
    requires ValidDate(date)
    ensures text == TasksOnDateText(date, Snapshot(tasks))
  {
    var header := "Here are the tasks occurring on " + FormatDateForDisplay(date) + ":";
    if |tasks| == 0 {
      return header + "\nNo matching tasks.";
    }
    text := FormatNumberedList(header, tasks);
  }

  // ---------------------------------------------------------------- the objects

  class Bob {
    /** The task list; Bob never replaces it. */
    const list: TaskList
    /** The lines of the storage file as the last save that went through wrote them. */
    var file: seq<string>

    /** No task object is in the list twice. */
    predicate Valid()
      reads this, list
    {
      Distinct(list.tasks)
    }

    /** Bob carried out the step e: the list holds e's tasks, the result lists e's tasks, and the file was saved when e saved. */
    predicate Reflects(e: Effect, oldFile: seq<string>, result: CommandResult<Task<Timestamp>>)
      reads this, list, list.tasks, result.Listed()
    {
      Snapshot(list.tasks) == e.tasks && Values(result) == e.result &&
      file == (if e.saved then FormatLines(e.tasks, FormatStorage) else oldFile)
    }

    /**
     * new Bob(filePath): the tasks loaded from the file's lines, or an empty
     * list when reading the file failed (None).
     */
    constructor(stored: Option<seq<string>>)
      ensures Valid() && fresh(list)
      ensures Snapshot(list.tasks) == (if stored.Some? then ParseLines(stored.value, ParseStorage) else [])
      ensures file == (if stored.Some? then stored.value else [])
    {
      var loaded: seq<Task<Timestamp>> := [];
      if stored.Some? {
        loaded := Load(stored.value, ParseStorage);
      }
      list := new TaskList.Of(loaded);
      file := if stored.Some? then stored.value else [];
    }

    /**
     * saveTasks, followed by the handler's reply: the message when the file
     * was written, the failure otherwise.
     */
    method SaveAndReply(ghost ds: seq<Data>, ghost p: Plan, text: string, saveError: Option<string>)
      returns (result: CommandResult<Task<Timestamp>>)
      requires p.Update? && p.tasks == Snapshot(list.tasks) && p.text == text
      modifies this
      ensures Reflects(Commit(ds, p, saveError), old(file), result)
    {
      var lines := Save(list.tasks, FormatStorage);
      if saveError.None? {
        file := lines;
        result := Message(text);
      } else {
        result := Error(SaveFailure + saveError.value);
      }
    }

    /** handleMark and handleUnmark. */
    method HandleStatus(input: string, prefix: string, s: Status, text: string, saveError: Option<string>)
      returns (result: CommandResult<Task<Timestamp>>)
      requires Valid() && StartsWith(input, prefix)
      modifies this, list.tasks
      ensures Valid()
      ensures Reflects(Commit(old(Snapshot(list.tasks)), StatusPlan(old(Snapshot(list.tasks)), input, prefix, s, text), saveError),
                       old(file), result)
    {
      var index := ParseIndex(input, prefix);
      result := SetStatusAndReply(index, s, text, saveError);
    }

    /** The rest of handleMark and handleUnmark: a number out of range is refused, otherwise the status is set and saved. */
    method SetStatusAndReply(index: int, s: Status, text: string, saveError: Option<string>)
      returns (result: CommandResult<Task<Timestamp>>)
      requires Valid()
      modifies this, list.tasks
      ensures Valid()
      ensures Reflects(Commit(old(Snapshot(list.tasks)), StatusAt(old(Snapshot(list.tasks)), index, s, text), saveError),
                       old(file), result)
    {
      ghost var before := Snapshot(list.tasks);
      if !list.IsValidIndex(index) {
        return Error(TaskNotFoundError);
      }
      var task := SetStatusAt(index, s);
      result := SaveAndReply(before, StatusAt(before, index, s, text), text + Show(task.Data()), saveError);
    }

    /** The middle of handleMark and handleUnmark: get the numbered task and set its status. */
    method SetStatusAt(index: int, s: Status) returns (task: Task<Timestamp>)
      requires Valid() && list.IsValidIndex(index)
      modifies list.tasks
      ensures unchanged(this, list)
      ensures var d := old(Snapshot(list.tasks))[index].(status := s);
        task.Data() == d && Snapshot(list.tasks) == old(Snapshot(list.tasks))[index := d]
    {
      ghost var before := Snapshot(list.tasks);
      task := list.Get(index);
      task.SetStatus(s);
      ghost var after := before[index := task.Data()];
      forall k | 0 <= k < |list.tasks|
        ensures list.tasks[k].Data() == after[k]
      {
        if k != index {
          assert list.tasks[k] != task;
        }
      }
      SnapshotPointwise(list.tasks, after);
    }

    /** handleDelete. */
    method HandleDelete(input: string, saveError: Option<string>) returns (result: CommandResult<Task<Timestamp>>)
      requires Valid() && StartsWith(input, DeletePrefix)
      modifies this, list
      ensures Valid()
      ensures Reflects(Commit(old(Snapshot(list.tasks)), DeletePlan(old(Snapshot(list.tasks)), input), saveError),
                       old(file), result)
    {
      var index := ParseIndex(input, DeletePrefix);
      result := RemoveAndReply(index, saveError);
    }

    /** The rest of handleDelete: a number out of range is refused, otherwise the task is removed and the list saved. */
    method RemoveAndReply(index: int, saveError: Option<string>) returns (result: CommandResult<Task<Timestamp>>)
      requires Valid()
      modifies this, list
      ensures Valid()
      ensures Reflects(Commit(old(Snapshot(list.tasks)), DeleteAt(old(Snapshot(list.tasks)), index), saveError),
                       old(file), result)
    {
      if !list.IsValidIndex(index) {
        return Error(TaskNotFoundError);
      }
      result := RemoveAt(index, Snapshot(list.tasks), saveError);
    }

    /** tasks.deleteTask(index), then saveTasks and the reply that counts what is left. */
    method RemoveAt(index: int, ghost ds: seq<Data>, saveError: Option<string>) returns (result: CommandResult<Task<Timestamp>>)
      requires Valid() && list.IsValidIndex(index) && Snapshot(list.tasks) == ds
      modifies this, list
      ensures Valid()
      ensures Reflects(Commit(ds, DeleteAt(ds, index), saveError), old(file), result)
    {
      var removed := list.Remove(index);
      var text := RemovedText + Show(removed.Data()) + CountText(list.Size());
      assert DeleteAt(ds, index) == Update(Snapshot(list.tasks), text);
      result := SaveAndReply(ds, DeleteAt(ds, index), text, saveError);
    }

    /** The constructor handleTodo, handleDeadline or handleEvent calls: a new task object of d's kind. */
    static method NewTask(d: Data) returns (task: Task<Timestamp>)
      requires d.status == NotDone
      ensures fresh(task) && task.Data() == d
    {
      if d.kind.Todo? {
        task := new Task.Todo(d.description);
      } else if d.kind.Deadline? {
        task := new Task.Deadline(d.description, d.kind.due);
      } else {
        task := new Task.Event(d.description, d.kind.from, d.kind.to);
      }
    }

    /** tasks.addTask(task), then saveTasks and the reply that counts the tasks. */
    method Append(task: Task<Timestamp>, ghost ds: seq<Data>, ghost d: Data, saveError: Option<string>)
      returns (result: CommandResult<Task<Timestamp>>)
      requires Valid() && task !in list.tasks && Snapshot(list.tasks) == ds && task.Data() == d
      modifies this, list
      ensures Valid()
      ensures Reflects(Commit(ds, AddPlan(ds, d), saveError), old(file), result)
    {
      list.Add(task);
      result := SaveAndReply(ds, AddPlan(ds, d), AddedText + Show(task.Data()) + CountText(list.Size()), saveError);
    }

    /**
     * The end of handleTodo, handleDeadline and handleEvent: a refused line
     * is answered with its error; otherwise the new task is created,
     * appended and saved.
     */
    method AddTask(outcome: Outcome<Data>, saveError: Option<string>) returns (result: CommandResult<Task<Timestamp>>)
      requires Valid() && (outcome.Success? ==> outcome.value.status == NotDone)
      modifies this, list
      ensures Valid()
      ensures Reflects(Commit(old(Snapshot(list.tasks)), AddOrRefuse(old(Snapshot(list.tasks)), outcome), saveError),
                       old(file), result)
    {
      ghost var before := Snapshot(list.tasks);
      if outcome.Failure? {
        return Error(outcome.message);
      }
      var task := NewTask(outcome.value);
      result := Append(task, before, outcome.value, saveError);
    }

    /** handleTodo. */
    method HandleTodo(input: string, saveError: Option<string>) returns (result: CommandResult<Task<Timestamp>>)
      requires Valid() && StartsWith(input, TodoPrefix)
      modifies this, list
      ensures Valid()
      ensures Reflects(Commit(old(Snapshot(list.tasks)), TodoPlan(old(Snapshot(list.tasks)), input), saveError),
                       old(file), result)
    {
      var outcome := TodoTask(input);
      result := AddTask(outcome, saveError);
    }

    /** handleDeadline. */
    method HandleDeadline(input: string, saveError: Option<string>) returns (result: CommandResult<Task<Timestamp>>)
      requires Valid() && StartsWith(input, DeadlinePrefix)
      modifies this, list
      ensures Valid()
      ensures Reflects(Commit(old(Snapshot(list.tasks)), DeadlinePlan(old(Snapshot(list.tasks)), input), saveError),
                       old(file), result)
    {
      var outcome := DeadlineTask(input);
      result := AddTask(outcome, saveError);
    }

    /** handleEvent. */
    method HandleEvent(input: string, saveError: Option<string>) returns (result: CommandResult<Task<Timestamp>>)
      requires Valid() && StartsWith(input, EventPrefix)
      modifies this, list
      ensures Valid()
      ensures Reflects(Commit(old(Snapshot(list.tasks)), EventPlan(old(Snapshot(list.tasks)), input), saveError),
                       old(file), result)
    {
      var outcome := EventTask(input);
      result := AddTask(outcome, saveError);
    }

    /** handleFind: the tasks whose description contains the keyword, ignoring case, in list order; nothing changes. */
    method HandleFind(input: string) returns (result: CommandResult<Task<Timestamp>>)
      requires StartsWith(input, FindPrefix)
      ensures Values(result) == FindResult(Snapshot(list.tasks), input)
    {
      var keyword := ParseFindKeyword(input);
      var matching := list.FindTasksByKeyword(keyword);
      SnapshotSelect(list.tasks, Keyword(keyword));
      result := MatchingTasks(matching);
    }

    /** handleOn: the deadlines due on the date and the events that touch it, in list order; nothing changes. */
    method HandleOn(input: string) returns (result: CommandResult<Task<Timestamp>>)
      requires StartsWith(input, OnPrefix)
      ensures Values(result) == OnResult(Snapshot(list.tasks), input)
    {
      var date := ParseOnDate(input);
      if date.None? {
        return Error(DateFormatHint);
      }
      var matching := list.GetTasksOnDate(date.value);
      SnapshotSelect(list.tasks, OnDate(date.value));
      result := TasksOnDate(date.value, matching);
    }

    /** processCommand: one input line, carried out on the objects as Step says. */
    method ProcessCommand(input: string, saveError: Option<string>) returns (result: CommandResult<Task<Timestamp>>)
      requires Valid()
      modifies this, list, list.tasks
      ensures Valid()
      ensures Reflects(Step(old(Snapshot(list.tasks)), input, saveError), old(file), result)
    {
      var command := Dispatch(input);
      if Mutates(command) {
        result := ProcessChange(input, command, saveError);
      } else {
        result := ProcessQuery(input, command);
      }
    }

    /** The branches of processCommand that change the list and save it. */
    method ProcessChange(input: string, command: Command, saveError: Option<string>)
      returns (result: CommandResult<Task<Timestamp>>)
      requires Valid() && command == Dispatch(input) && Mutates(command)
      modifies this, list, list.tasks
      ensures Valid()
      ensures Reflects(Commit(old(Snapshot(list.tasks)), ChangePlan(old(Snapshot(list.tasks)), input, command), saveError),
                       old(file), result)
    {
      if command == MarkCommand {
        result := HandleStatus(input, MarkPrefix, Done, MarkedText, saveError);
      } else if command == UnmarkCommand {
        result := HandleStatus(input, UnmarkPrefix, NotDone, UnmarkedText, saveError);
      } else if command == DeleteCommand {
        result := HandleDelete(input, saveError);
      } else if command == TodoCommand {
        result := HandleTodo(input, saveError);
      } else if command == DeadlineCommand {
        result := HandleDeadline(input, saveError);
      } else {
        result := HandleEvent(input, saveError);
      }
    }

    /** The branches of processCommand that only answer: nothing changes and nothing is saved. */
    method ProcessQuery(input: string, command: Command) returns (result: CommandResult<Task<Timestamp>>)
      requires command == Dispatch(input) && !Mutates(command)
      ensures Values(result) == Answer(Snapshot(list.tasks), input, command)
    {
      if command == FindCommand {
        result := HandleFind(input);
      } else if command == OnCommand {
        result := HandleOn(input);
      } else {
        result := PlainReply(command);
      }
    }

    /** bye, list, and the replies to bare command words and unknown lines. */
    method PlainReply(command: Command) returns (result: CommandResult<Task<Timestamp>>)
      ensures Values(result) == PlainAnswer(Snapshot(list.tasks), command)
    {
      if command == ByeCommand {
        result := Exit;
      } else if command == ListCommand {
        result := List(list.tasks);
      } else {
        result := Error(Refusal(command));
      }
    }
  }
}
