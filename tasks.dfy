/** What the three task scripts (todo.py, task_manager.py, task_manager_bug.py) share:
    the allowed priorities and statuses, the "leave blank to keep" update of a task's
    details, the filtered listing of a manager's tasks, and the dictionary form of a task. */
module Tasks {
  import opened Common
  import opened Dates
  import opened PyValue

  const Priorities: seq<string> := ["High", "Medium", "Low"]
  const Statuses: seq<string> := ["To Do", "In Progress", "Done"]

  /** The `ValueError`s a task raises. */
  datatype TaskError = InvalidPriority | InvalidStatus | PastDueDate

  /** The checks of a `Task` constructor that takes a status, in the order the
      constructor makes them: priority, then status, then the due date. */
  function CheckNew(priority: string, status: string, due: ValidDate, today: ValidDate): (r: Outcome<TaskError>)
    ensures r.Pass? <==> priority in Priorities && status in Statuses && !due.Before(today)
    ensures r == Fail(InvalidPriority) <==> priority !in Priorities
    ensures r == Fail(InvalidStatus) <==> priority in Priorities && status !in Statuses
  {
    if priority !in Priorities then Fail(InvalidPriority)
    else if status !in Statuses then Fail(InvalidStatus)
    else if due.Before(today) then Fail(PastDueDate)
    else Pass
  }

  /** The fields of a task that `update_details` may change. */
  datatype Details = Details(title: string, description: string, due: ValidDate, priority: string, status: string)

  /** `update_details(title, description, due_date, priority, status)`: an argument that
      is falsy (`None` or the empty string, both written `""` here; `None` for the date)
      leaves its field alone. The fields are assigned one after the other, so a rejected
      due date, priority or status raises after the fields before it were already set.
      The result is the task's new details together with what the call raised. */
  function ApplyDetails(d: Details, title: string, description: string, due: Option<ValidDate>,
                        priority: string, status: string, today: ValidDate): (r: (Details, Outcome<TaskError>))
    // title and description are set before anything can be rejected
    ensures r.0.title == (if title != "" then title else d.title)
    ensures r.0.description == (if description != "" then description else d.description)
    // the call succeeds exactly when every supplied value is acceptable
    ensures r.1.Pass? <==>
      (due.None? || !due.value.Before(today)) &&
      (priority == "" || priority in Priorities) &&
      (status == "" || status in Statuses)
    ensures r.1.Pass? ==>
      r.0 == Details(r.0.title, r.0.description,
                     if due.Some? then due.value else d.due,
                     if priority != "" then priority else d.priority,
                     if status != "" then status else d.status)
    // the error raised is that of the first check that fails, in assignment order
    ensures r.1.Fail? ==>
      r.1.error == (if due.Some? && due.value.Before(today) then PastDueDate
                    else if priority != "" && priority !in Priorities then InvalidPriority
                    else InvalidStatus)
    // a rejected value is not stored, nothing after it is changed, and what came
    // before it stays assigned
    ensures r.1 == Fail(PastDueDate) ==>
      r.0.due == d.due && r.0.priority == d.priority && r.0.status == d.status
    ensures r.1 == Fail(InvalidPriority) ==>
      r.0.due == (if due.Some? then due.value else d.due) &&
      r.0.priority == d.priority && r.0.status == d.status
    ensures r.1 == Fail(InvalidStatus) ==>
      r.0.due == (if due.Some? then due.value else d.due) &&
      r.0.priority == (if priority != "" then priority else d.priority) &&
      r.0.status == d.status
    // no argument supplied: nothing changes
    ensures title == "" && description == "" && due.None? && priority == "" && status == "" ==> r == (d, Pass)
  {
    var d1 := if title != "" then d.(title := title) else d;
    var d2 := if description != "" then d1.(description := description) else d1;
    if due.Some? && due.value.Before(today) then (d2, Fail(PastDueDate))
    else
      var d3 := if due.Some? then d2.(due := due.value) else d2;
      if priority != "" && priority !in Priorities then (d3, Fail(InvalidPriority))
      else
        var d4 := if priority != "" then d3.(priority := priority) else d3;
        if status != "" && status !in Statuses then (d4, Fail(InvalidStatus))
        else (if status != "" then d4.(status := status) else d4, Pass)
  }

  /** One entry of the list `list_tasks` returns. */
  datatype Row = Row(id: int, title: string, description: string, status: string, due: ValidDate, priority: string)

  function RowOf(id: int, d: Details): Row {
    Row(id, d.title, d.description, d.status, d.due, d.priority)
  }

  /** The filter of `list_tasks`: a `None` filter lets every task through. */
  predicate Matches(d: Details, status: Option<string>, priority: Option<string>) {
    (status.None? || d.status == status.value) && (priority.None? || d.priority == priority.value)
  }

  /** The rows `list_tasks` builds from the tasks under `ids`, visited in that order. */
  function Select(ids: seq<int>, m: map<int, Details>, status: Option<string>, priority: Option<string>): seq<Row>
    requires forall k :: k in ids ==> k in m
  {
    if ids == [] then []
    else
      var last := ids[|ids| - 1];
      Select(ids[..|ids| - 1], m, status, priority) +
        (if Matches(m[last], status, priority) then [RowOf(last, m[last])] else [])
  }

  /** A row is listed exactly when it is the row of a task under one of the ids that
      passes both filters. */
  lemma {:induction false} SelectMembership(ids: seq<int>, m: map<int, Details>,
                                            status: Option<string>, priority: Option<string>, row: Row)
    requires forall k :: k in ids ==> k in m
    ensures row in Select(ids, m, status, priority) <==>
            exists k :: k in ids && Matches(m[k], status, priority) && row == RowOf(k, m[k])
  {
    if ids != [] {
      var init, last := ids[..|ids| - 1], ids[|ids| - 1];
      SelectMembership(init, m, status, priority, row);
      var tail := if Matches(m[last], status, priority) then [RowOf(last, m[last])] else [];
      assert Select(ids, m, status, priority) == Select(init, m, status, priority) + tail;
      assert forall k :: k in ids <==> k in init || k == last by {
        assert ids == init + [last];
      }
    }
  }

  /** Listing keeps the visiting order: the rows for a longer run of ids are the rows
      for its first part followed by the rows for the rest. */
  lemma {:induction false} SelectConcat(a: seq<int>, b: seq<int>, m: map<int, Details>,
                                        status: Option<string>, priority: Option<string>)
    requires forall k :: k in a + b ==> k in m
    ensures Select(a + b, m, status, priority) == Select(a, m, status, priority) + Select(b, m, status, priority)
    decreases |b|
  {
    if b != [] {
      var init := b[..|b| - 1];
      assert (a + b)[..|a + b| - 1] == a + init;
      SelectConcat(a, init, m, status, priority);
    } else {
      assert a + b == a;
    }
  }

  /** With no filter, every task is listed. */
  lemma {:induction false} SelectUnfiltered(ids: seq<int>, m: map<int, Details>)
    requires forall k :: k in ids ==> k in m
    ensures |Select(ids, m, None, None)| == |ids|
  {
    if ids != [] {
      SelectUnfiltered(ids[..|ids| - 1], m);
    }
  }

  const TaskKeys: set<string> := {"title", "description", "due_date", "priority", "status", "created_date"}

  /** `to_dict()` of task_manager.py and task_manager_bug.py: exactly six keys, the two
      dates in ISO form (which `fromisoformat` reads back unchanged, by `IsoRoundTrip`). */
  function ToDict(d: Details, created: ValidDate): (r: map<string, Value>)
    ensures r.Keys == TaskKeys
    ensures r["title"] == Str(d.title) && r["description"] == Str(d.description)
    ensures r["priority"] == Str(d.priority) && r["status"] == Str(d.status)
    ensures r["due_date"] == Str(IsoFormat(d.due)) && r["created_date"] == Str(IsoFormat(created))
  {
    var r := map[
      "title" := Str(d.title),
      "description" := Str(d.description),
      "due_date" := Str(IsoFormat(d.due)),
      "priority" := Str(d.priority),
      "status" := Str(d.status),
      "created_date" := Str(IsoFormat(created))
    ];
    assert r.Keys == TaskKeys;
    r
  }
}
