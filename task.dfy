/**
 * bob.task.Task and its three kinds (bob.tasktype.Todo, Deadline, Event).
 * The kinds form a closed sum over the type T of their times: the bob
 * package keeps LocalDateTime values (T = Timestamp), the earlier root
 * Bob.java keeps the raw text the user typed (T = string). Only the status
 * of a task ever changes after construction.
 */
module Tasks {

  /** Task.Status. */
  datatype Status = Done | NotDone

  /** Status.icon: "X" for DONE and " " for NOT_DONE. */
  function Icon(s: Status): (r: string)
    ensures |r| == 1
    ensures r == "X" <==> s == Done
    ensures r == " " <==> s.NotDone?
  {
    if s == Done then "X" else " "
  }

  /** Which subclass a task is, with the times that subclass holds. */
  datatype Kind<T> = Todo | Deadline(due: T) | Event(from: T, to: T)

  /** The value of a task at one moment. */
  datatype TaskData<T> = TaskData(kind: Kind<T>, description: string, status: Status)

  /** The letter inside the first pair of brackets of toString. */
  function Tag<T>(k: Kind<T>): char {
    match k
    case Todo => 'T'
    case Deadline(_) => 'D'
    case Event(_, _) => 'E'
  }

  /** What toString appends after the description; a Todo has no time. */
  function Times<T>(k: Kind<T>, show: T -> string): string {
    match k
    case Todo => ""
    case Deadline(due) => " (by: " + show(due) + ")"
    case Event(from, to) => " (from: " + show(from) + " to: " + show(to) + ")"
  }

  /** Task.toString: "[icon] description". */
  function PlainDisplay(status: Status, description: string): (r: string)
    ensures |r| == 4 + |description| && r[0] == '[' && r[2..4] == "] "
    ensures r[1] == 'X' <==> status == Done
    ensures r[4..] == description
  {
    "[" + Icon(status) + "] " + description
  }

  /**
   * Todo/Deadline/Event.toString: "[T]", "[D]" or "[E]", then the plain
   * display, then the times as show renders them.
   */
  function Display<T>(t: TaskData<T>, show: T -> string): (r: string)
    ensures |r| >= 7 + |t.description|
    ensures r[..3] == ['[', Tag(t.kind), ']'] && r[3..7 + |t.description|] == PlainDisplay(t.status, t.description)
    ensures r[7 + |t.description|..] == Times(t.kind, show)
    ensures r[4] == 'X' <==> t.status == Done
  {
    var r := "[" + [Tag(t.kind)] + "]" + PlainDisplay(t.status, t.description) + Times(t.kind, show);
    assert r[3..7 + |t.description|] == PlainDisplay(t.status, t.description);
    r
  }

  /**
   * Changing the status changes exactly one character of the display: the
   * icon between the second pair of brackets.
   */
  lemma DisplayOnlyIconDepends<T>(t: TaskData<T>, s: Status, show: T -> string)
    ensures Display(t.(status := s), show) == Display(t, show)[4 := Icon(s)[0]]
  {
    var a, b := Display(t.(status := s), show), Display(t, show);
    var n := |t.description|;
    assert a[..3] == b[..3];
    assert a[5..7 + n] == b[5..7 + n] by {
      assert a[3..7 + n][2..] == b[3..7 + n][2..];
    }
    assert a[7 + n..] == b[7 + n..];
    assert a[4] == Icon(s)[0] by {
      assert a[3..7 + n][1] == PlainDisplay(s, t.description)[1];
    }
  }

  /** Two tasks that display alike are of the same kind and status. */
  lemma DisplayShowsKindAndStatus<T>(a: TaskData<T>, b: TaskData<T>, show: T -> string)
    requires Display(a, show) == Display(b, show)
    ensures Tag(a.kind) == Tag(b.kind) && a.status == b.status
  {
    assert Display(a, show)[..3][1] == Tag(a.kind);
    assert Display(b, show)[..3][1] == Tag(b.kind);
  }

  /** A Task object: its kind and description are fixed, its status is not. */
  class Task<T> {
    const kind: Kind<T>
    const description: string
    var status: Status

    /** new Todo(description). */
    constructor Todo(description: string)
      ensures kind == Kind.Todo && this.description == description && status == NotDone
    {
      kind := Kind.Todo;
      this.description := description;
      status := NotDone;
    }

    /** new Deadline(description, by). */
    constructor Deadline(description: string, due: T)
      ensures kind == Kind.Deadline(due) && this.description == description && status == NotDone
    {
      kind := Kind.Deadline(due);
      this.description := description;
      status := NotDone;
    }

    /** new Event(description, from, to): the two times are kept as given, in either order. */
    constructor Event(description: string, from: T, to: T)
      ensures kind == Kind.Event(from, to) && this.description == description && status == NotDone
    {
      kind := Kind.Event(from, to);
      this.description := description;
      status := NotDone;
    }

    method MarkDone()
      modifies this
      ensures status == Done
    {
      status := Done;
    }

    method MarkNotDone()
      modifies this
      ensures status == NotDone
    {
      status := NotDone;
    }

    method SetStatus(s: Status)
      modifies this
      ensures status == s
    {
      status := s;
    }

    /** The task's current value. */
    function Data(): (d: TaskData<T>)
      reads this
      ensures d.kind == kind && d.description == description && d.status == status
    {
      TaskData(kind, description, status)
    }
  }

  /** The values of a sequence of task objects, in order. */
  function Snapshot<T>(ts: seq<Task<T>>): (r: seq<TaskData<T>>)
    reads ts
    ensures |r| == |ts|
    ensures forall i :: 0 <= i < |ts| ==> r[i] == ts[i].Data()
  {
    if ts == [] then [] else Snapshot(ts[..|ts| - 1]) + [ts[|ts| - 1].Data()]
  }

  /** No task object appears twice. */
  predicate Distinct<T>(ts: seq<Task<T>>) {
    forall i, j :: 0 <= i < j < |ts| ==> ts[i] != ts[j]
  }

  /** The snapshot of two runs of tasks put together is the two snapshots put together. */
  lemma SnapshotAppend<T>(a: seq<Task<T>>, b: seq<Task<T>>)
    ensures Snapshot(a + b) == Snapshot(a) + Snapshot(b)
  {
  }

  /** Reading the tasks left by a removal gives the values left by removing the same position. */
  lemma SnapshotRemove<T>(ts: seq<Task<T>>, i: nat)
    requires i < |ts|
    ensures Snapshot(ts[..i] + ts[i + 1..]) == Snapshot(ts)[..i] + Snapshot(ts)[i + 1..]
  {
    var u := ts[..i] + ts[i + 1..];
    var s := Snapshot(ts);
    var v := s[..i] + s[i + 1..];
    var w := Snapshot(u);
    assert |w| == |u| == |v|;
    forall k | 0 <= k < |v|
      ensures w[k] == v[k]
    {
      if k < i {
        assert u[k] == ts[k] && v[k] == s[k];
      } else {
        assert u[k] == ts[k + 1] && v[k] == s[k + 1];
      }
    }
    assert w == v;
  }

  /** Removing a task keeps the others distinct. */
  lemma DistinctRemove<T>(ts: seq<Task<T>>, i: nat)
    requires i < |ts| && Distinct(ts)
    ensures Distinct(ts[..i] + ts[i + 1..])
  {
    var u := ts[..i] + ts[i + 1..];
    forall a, b | 0 <= a < b < |u|
      ensures u[a] != u[b]
    {
      var a', b' := if a < i then a else a + 1, if b < i then b else b + 1;
      assert u[a] == ts[a'] && u[b] == ts[b'];
    }
  }

  /** Adding a task that is not yet in the list keeps the tasks distinct. */
  lemma DistinctAppend<T>(ts: seq<Task<T>>, t: Task<T>)
    requires Distinct(ts) && t !in ts
    ensures Distinct(ts + [t])
  {
    var u := ts + [t];
    forall a, b | 0 <= a < b < |u|
      ensures u[a] != u[b]
    {
      assert u[a] == ts[a];
    }
  }

  /** Reading the tasks one by one gives their snapshot. */
  lemma SnapshotPointwise<T>(ts: seq<Task<T>>, v: seq<TaskData<T>>)
    requires |v| == |ts| && forall k :: 0 <= k < |ts| ==> ts[k].Data() == v[k]
    ensures Snapshot(ts) == v
  {
    var w := Snapshot(ts);
    assert |w| == |v|;
    forall k | 0 <= k < |v|
      ensures w[k] == v[k]
    {
    }
    assert w == v;
  }
}
