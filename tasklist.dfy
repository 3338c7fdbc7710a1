/**
 * bob.task.TaskList: an ordered, index-addressed list of task objects that
 * add and remove change in place, and its two order-preserving queries.
 */
module TaskLists {
  import opened Strings
  import opened DateTimeUtil
  import opened Tasks

  /** The two questions a task list answers: a keyword search and an on-date search. */
  datatype Query = Keyword(keyword: string) | OnDate(date: Date)

  /** The lower-cased description contains the lower-cased keyword. */
  predicate MatchesKeyword(description: string, keyword: string) {
    Contains(ToLower(description), ToLower(keyword))
  }

  /**
   * The last instant of the day, date.plusDays(1).atStartOfDay().minusNanos(1),
   * as the last minute: no timestamp here falls strictly between the two.
   */
  function EndOfDay(date: Date): DateTime {
    DateTime(date, 23, 59)
  }

  /**
   * TaskList.isTaskOnDate: a deadline falls on the day it is due; an event
   * falls on every day its closed interval touches; a todo never does.
   */
  predicate OccursOn(kind: Kind<Timestamp>, date: Date) {
    match kind
    case Todo => false
    case Deadline(due) => due.date == date
    case Event(from, to) => !IsBefore(to, AtStartOfDay(date)) && !IsAfter(from, EndOfDay(date))
  }

  predicate Selects(q: Query, kind: Kind<Timestamp>, description: string) {
    match q
    case Keyword(keyword) => MatchesKeyword(description, keyword)
    case OnDate(date) => OccursOn(kind, date)
  }

  /** The task objects the query selects, in list order. */
  function SelectTasks(ts: seq<Task<Timestamp>>, q: Query): (r: seq<Task<Timestamp>>)
    ensures |r| <= |ts|
  {
    if ts == [] then []
    else
      var last := ts[|ts| - 1];
      SelectTasks(ts[..|ts| - 1], q) + (if Selects(q, last.kind, last.description) then [last] else [])
  }

  /** The task values the query selects, in list order. */
  function SelectData(ds: seq<TaskData<Timestamp>>, q: Query): (r: seq<TaskData<Timestamp>>)
    ensures |r| <= |ds|
  {
    if ds == [] then []
    else
      var last := ds[|ds| - 1];
      SelectData(ds[..|ds| - 1], q) + (if Selects(q, last.kind, last.description) then [last] else [])
  }

  /** A value is selected exactly when it is in the list and the query selects it. */
  lemma {:induction false} SelectDataMembers(ds: seq<TaskData<Timestamp>>, q: Query)
    ensures forall d :: d in SelectData(ds, q) <==> d in ds && Selects(q, d.kind, d.description)
  {
    if ds != [] {
      var init, last := ds[..|ds| - 1], ds[|ds| - 1];
      SelectDataMembers(init, q);
      assert ds == init + [last];
    }
  }

  /** Selection keeps list order: selecting from a concatenation concatenates the selections. */
  lemma {:induction false} SelectDataAppend(a: seq<TaskData<Timestamp>>, b: seq<TaskData<Timestamp>>, q: Query)
    ensures SelectData(a + b, q) == SelectData(a, q) + SelectData(b, q)
    decreases |b|
  {
    if b == [] {
      assert a + b == a;
    } else {
      var init, last := b[..|b| - 1], b[|b| - 1];
      var ab := a + b;
      assert ab[..|ab| - 1] == a + init && ab[|ab| - 1] == last;
      var tail := if Selects(q, last.kind, last.description) then [last] else [];
      assert SelectData(ab, q) == SelectData(a + init, q) + tail;
      assert SelectData(b, q) == SelectData(init, q) + tail;
      SelectDataAppend(a, init, q);
      ConcatAssociates(SelectData(a, q), SelectData(init, q), tail);
    }
  }

  /** Selecting task objects and then reading them gives the selection of their values. */
  lemma {:induction false} SnapshotSelect(ts: seq<Task<Timestamp>>, q: Query)
    ensures Snapshot(SelectTasks(ts, q)) == SelectData(Snapshot(ts), q)
  {
    if ts != [] {
      var init, last := ts[..|ts| - 1], ts[|ts| - 1];
      var snap := Snapshot(ts);
      SnapshotSelect(init, q);
      assert snap[..|ts| - 1] == Snapshot(init);
      assert snap[|ts| - 1] == last.Data();
      var part := if Selects(q, last.kind, last.description) then [last] else [];
      SnapshotAppend(SelectTasks(init, q), part);
      assert Snapshot(part) == if Selects(q, last.kind, last.description) then [last.Data()] else [];
    }
  }

  /** The empty keyword, which "find" followed by blanks produces, selects every task. */
  lemma {:induction false} EmptyKeywordSelectsAll(ds: seq<TaskData<Timestamp>>)
    ensures SelectData(ds, Keyword("")) == ds
  {
    if ds != [] {
      var init, last := ds[..|ds| - 1], ds[|ds| - 1];
      EmptyKeywordSelectsAll(init);
      EmptyKeywordMatches(last.description);
      assert SelectData(ds, Keyword("")) == SelectData(init, Keyword("")) + [last];
      assert init + [last] == ds;
    }
  }

  /** Every description contains the empty keyword. */
  lemma EmptyKeywordMatches(description: string)
    ensures MatchesKeyword(description, "")
  {
    assert OccursAt(ToLower(description), ToLower(""), 0);
  }

  /** The search ignores letter case on both sides. */
  lemma KeywordIgnoresCase(description: string, keyword: string)
    ensures MatchesKeyword(description, keyword) <==> MatchesKeyword(ToLower(description), ToLower(keyword))
  {
    assert ToLower(ToLower(description)) == ToLower(description);
    assert ToLower(ToLower(keyword)) == ToLower(keyword);
  }

  /**
   * At minute precision an event falls on a date exactly when that date
   * lies between the calendar dates of its start and its end.
   */
  lemma EventOccursOnDates(from: Timestamp, to: Timestamp, date: Date)
    ensures OccursOn(Kind.Event(from, to), date) <==> !DateBefore(to.date, date) && !DateBefore(date, from.date)
  {
  }

  /** An event from 23:00 to 01:00 the next morning falls on both days and on no other. */
  lemma OvernightEventExample()
    ensures var e := Kind.Event(DateTime(Date(2025, 1, 15), 23, 0), DateTime(Date(2025, 1, 16), 1, 0));
      OccursOn(e, Date(2025, 1, 15)) && OccursOn(e, Date(2025, 1, 16)) &&
      !OccursOn(e, Date(2025, 1, 14)) && !OccursOn(e, Date(2025, 1, 17))
  {
  }

  /** A deadline falls only on the calendar date it is due, whatever its time of day. */
  lemma DeadlineOccursOnlyOnItsDate(due: Timestamp, date: Date)
    ensures OccursOn(Kind.Deadline(due), date) <==> due.date == date
  {
  }

  class TaskList {
    var tasks: seq<Task<Timestamp>>

    /** new TaskList(). */
    constructor()
      ensures tasks == []
    {
      tasks := [];
    }

    /** new TaskList(list) and new TaskList(task...): the given tasks, in order. */
    constructor Of(initial: seq<Task<Timestamp>>)
      ensures tasks == initial
    {
      tasks := initial;
    }

    /** Appends one task at the end. */
    method Add(task: Task<Timestamp>)
      modifies this
      ensures tasks == old(tasks) + [task]
      ensures Snapshot(tasks) == old(Snapshot(tasks)) + [old(task.Data())]
      ensures Distinct(old(tasks)) && task !in old(tasks) ==> Distinct(tasks)
    {
      SnapshotAppend(tasks, [task]);
      tasks := tasks + [task];
    }

    /** The varargs add: appends the given tasks one by one, in order. */
    method AddAll(more: seq<Task<Timestamp>>)
      modifies this
      ensures tasks == old(tasks) + more
    {
      var i := 0;
      while i < |more|
        invariant 0 <= i <= |more|
        invariant tasks == old(tasks) + more[..i]
      {
        assert more[..i + 1] == more[..i] + [more[i]];
        tasks := tasks + [more[i]];
        i := i + 1;
      }
      assert more[..|more|] == more;
    }

    /** Removes and returns the task at index; the others keep their order. */
    method Remove(index: int) returns (removed: Task<Timestamp>)
      requires IsValidIndex(index)
      modifies this
      ensures removed == old(tasks)[index]
      ensures tasks == old(tasks)[..index] + old(tasks)[index + 1..]
      ensures |tasks| == |old(tasks)| - 1
      ensures removed.Data() == old(Snapshot(tasks))[index]
      ensures Snapshot(tasks) == old(Snapshot(tasks))[..index] + old(Snapshot(tasks))[index + 1..]
      ensures Distinct(old(tasks)) ==> Distinct(tasks)
    {
      SnapshotRemove(tasks, index);
      if Distinct(tasks) {
        DistinctRemove(tasks, index);
      }
      removed := tasks[index];
      tasks := tasks[..index] + tasks[index + 1..];
    }

    /** The task at a valid index. */
    function Get(index: int): (t: Task<Timestamp>)
      reads this
      requires IsValidIndex(index)
      ensures t in tasks && t == tasks[index]
    {
      tasks[index]
    }

    function Size(): (n: nat)
      reads this
      ensures n == |tasks|
    {
      |tasks|
    }

    predicate IsValidIndex(index: int)
      reads this
      ensures IsValidIndex(index) <==> 0 <= index < Size()
    {
      0 <= index < |tasks|
    }

    /** findTasksByKeyword: the tasks whose description contains the keyword, ignoring case, in order. */
    method FindTasksByKeyword(keyword: string) returns (matching: seq<Task<Timestamp>>)
      ensures matching == SelectTasks(tasks, Keyword(keyword))
    {
      var lowerKeyword := ToLower(keyword);
      matching := [];
      var i := 0;
      while i < |tasks|
        invariant 0 <= i <= |tasks|
        invariant matching == SelectTasks(tasks[..i], Keyword(keyword))
      {
        var t := tasks[i];
        assert tasks[..i + 1][..i] == tasks[..i];
        if Contains(ToLower(t.description), lowerKeyword) {
          matching := matching + [t];
        }
        i := i + 1;
      }
      assert tasks[..|tasks|] == tasks;
    }

    /** getTasksOnDate: the deadlines due on the date and the events touching it, in order. */
    method GetTasksOnDate(date: Date) returns (matching: seq<Task<Timestamp>>)
      ensures matching == SelectTasks(tasks, OnDate(date))
    {
      var startOfDay := AtStartOfDay(date);
      var endOfDay := EndOfDay(date);
      matching := [];
      var i := 0;
      while i < |tasks|
        invariant 0 <= i <= |tasks|
        invariant matching == SelectTasks(tasks[..i], OnDate(date))
      {
        var t := tasks[i];
        assert tasks[..i + 1][..i] == tasks[..i];
        var onDate := match t.kind
          case Todo => false
          case Deadline(due) => due.date == date
          case Event(from, to) => !IsBefore(to, startOfDay) && !IsAfter(from, endOfDay);
        if onDate {
          matching := matching + [t];
        }
        i := i + 1;
      }
      assert tasks[..|tasks|] == tasks;
    }
  }
}
