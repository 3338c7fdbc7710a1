/**
 * bob.command.CommandResult: what processing one command line produced,
 * tagged with its ResultType. The Java class keeps four fields and leaves
 * the ones a type does not use null; here each type is a constructor that
 * carries only its own fields, and the getters answer None for the others.
 * The element type E is the task object in the running program and the
 * task's value in the specification of a step; Values takes the one to the
 * other.
 */
module Commands {
  import opened Options
  import opened DateTimeUtil
  import opened Tasks

  const UnknownCommandError := "WRONG!!! I'm sorry, but I don't know what that means :-("

  const DateTimeFormatHint := "WRONG!!! Invalid date/time.\nUse formats like:\n  2019-10-15\n  2019-10-15 1800\n  2/12/2019 1800"

  const DateFormatHint := "WRONG!!! Invalid date.\nUse: on yyyy-mm-dd (e.g., on 2019-12-02)"

  datatype ResultType = ExitType | ListType | MatchingTasksType | TasksOnDateType | MessageType | ErrorType

  datatype CommandResult<E> =
    | Exit
    | List(tasks: seq<E>)
    | MatchingTasks(tasks: seq<E>)
    | TasksOnDate(date: Date, tasks: seq<E>)
    | Message(message: string)
    | Error(message: string)
  {
    function Type(): ResultType {
      match this
      case Exit => ExitType
      case List(_) => ListType
      case MatchingTasks(_) => MatchingTasksType
      case TasksOnDate(_, _) => TasksOnDateType
      case Message(_) => MessageType
      case Error(_) => ErrorType
    }

    /** getMessage: only a message or an error carries text. */
    function GetMessage(): (m: Option<string>)
      ensures m.Some? <==> Type() == MessageType || Type() == ErrorType
    {
      if Message? || Error? then Some(message) else None
    }

    /** getTaskList: only the three listing types carry tasks. */
    function GetTaskList(): (ts: Option<seq<E>>)
      ensures ts.Some? <==> Type() in {ListType, MatchingTasksType, TasksOnDateType}
    {
      if List? || MatchingTasks? || TasksOnDate? then Some(tasks) else None
    }

    /** The tasks a result lists, none for the other types. */
    function Listed(): (ts: seq<E>)
      ensures GetTaskList().Some? ==> ts == GetTaskList().value
      ensures GetTaskList().None? ==> ts == []
    {
      if List? || MatchingTasks? || TasksOnDate? then tasks else []
    }

    /** getDate: only an on-date listing carries a date. */
    function GetDate(): (d: Option<Date>)
      ensures d.Some? <==> Type() == TasksOnDateType
    {
      if TasksOnDate? then Some(date) else None
    }
  }

  /** The value of a result over task objects: each listed task replaced by its current value. */
  function Values<T>(r: CommandResult<Task<T>>): (v: CommandResult<TaskData<T>>)
    reads r.Listed()
    ensures v.Type() == r.Type() && v.GetMessage() == r.GetMessage() && v.GetDate() == r.GetDate()
    ensures v.Listed() == Snapshot(r.Listed())
    ensures r.Exit? ==> v == Exit
    ensures r.List? ==> v == List(Snapshot(r.tasks))
    ensures r.MatchingTasks? ==> v == MatchingTasks(Snapshot(r.tasks))
    ensures r.TasksOnDate? ==> v == TasksOnDate(r.date, Snapshot(r.tasks))
    ensures r.Message? ==> v == Message(r.message)
    ensures r.Error? ==> v == Error(r.message)
  {
    match r
    case Exit => Exit
    case List(ts) => List(Snapshot(ts))
    case MatchingTasks(ts) => MatchingTasks(Snapshot(ts))
    case TasksOnDate(d, ts) => TasksOnDate(d, Snapshot(ts))
    case Message(m) => Message(m)
    case Error(m) => Error(m)
  }

  /** EXIT carries no message, no task list and no date. */
  lemma ExitCarriesNothing<E>(r: CommandResult<E>)
    requires r.Type() == ExitType
    ensures r.GetMessage() == None && r.GetTaskList() == None && r.GetDate() == None
  {
  }

  /** list and matchingTasks carry exactly the given tasks and no message or date. */
  lemma ListingCarriesTasks<E>(tasks: seq<E>)
    ensures List(tasks).GetTaskList() == Some(tasks) && List(tasks).GetMessage() == None && List(tasks).GetDate() == None
    ensures MatchingTasks(tasks).GetTaskList() == Some(tasks) && MatchingTasks(tasks).GetMessage() == None
    ensures MatchingTasks(tasks).GetDate() == None
  {
  }

  /** tasksOnDate carries both its date and its tasks. */
  lemma OnDateCarriesBoth<E>(date: Date, tasks: seq<E>)
    ensures TasksOnDate(date, tasks).GetDate() == Some(date) && TasksOnDate(date, tasks).GetTaskList() == Some(tasks)
    ensures TasksOnDate(date, tasks).GetMessage() == None
  {
  }

  /** message and error carry only their text. */
  lemma TextCarriesOnlyText<E>(text: string)
    ensures CommandResult<E>.Message(text).GetMessage() == Some(text) && CommandResult<E>.Message(text).GetTaskList() == None
    ensures CommandResult<E>.Error(text).GetMessage() == Some(text) && CommandResult<E>.Error(text).GetTaskList() == None
    ensures CommandResult<E>.Message(text).GetDate() == None && CommandResult<E>.Error(text).GetDate() == None
  {
  }
}
