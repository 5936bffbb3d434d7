/** task_manager_bug.py: the task of task_manager.py, but its constructor takes a status
    (checked like todo.py's) and it has no manager and no `from_dict`. */
module TaskManagerBug {
  import opened Common
  import opened Dates
  import opened PyValue
  import opened Tasks

  class Task {
    var title: string
    var description: string
    var due: ValidDate
    var priority: string
    var status: string
    var created: ValidDate

    ghost predicate Valid()
      reads this
    {
      priority in Priorities && status in Statuses
    }

    function Fields(): Details
      reads this
    {
      Details(title, description, due, priority, status)
    }

    constructor Init(d: Details, created: ValidDate)
      ensures Fields() == d && this.created == created
    {
      title, description, due, priority, status := d.title, d.description, d.due, d.priority, d.status;
      this.created := created;
    }

    /** `Task(title, description, due_date, priority, status)`: raises on a priority or a
        status outside the allowed ones, or on a due date before today (checked in that
        order); otherwise stores the five fields as given and today as the creation date. */
    static method New(title: string, description: string, due: ValidDate, priority: string,
                      status: string, today: ValidDate) returns (r: Result<Task, TaskError>)
      ensures r.Err? <==> CheckNew(priority, status, due, today).Fail?
      ensures r.Err? ==> CheckNew(priority, status, due, today) == Fail(r.error)
      ensures r.Ok? ==> fresh(r.value) && r.value.Valid() && r.value.created == today &&
                        r.value.Fields() == Details(title, description, due, priority, status)
    {
      if priority !in Priorities {
        return Err(InvalidPriority);
      }
      if status !in Statuses {
        return Err(InvalidStatus);
      }
      if due.Before(today) {
        return Err(PastDueDate);
      }
      var t := new Task.Init(Details(title, description, due, priority, status), today);
      return Ok(t);
    }

    /** `update_status(new_status)`: sets the status, or raises and changes nothing. */
    method UpdateStatus(newStatus: string) returns (r: Outcome<TaskError>)
      requires Valid()
      modifies this
      ensures Valid() && created == old(created)
      ensures r == (if newStatus in Statuses then Pass else Fail(InvalidStatus))
      ensures Fields() == if r.Pass? then old(Fields()).(status := newStatus) else old(Fields())
    {
      if newStatus !in Statuses {
        return Fail(InvalidStatus);
      }
      status := newStatus;
      return Pass;
    }

    /** `update_details(title, description, due_date, priority)`: as `ApplyDetails` with
        no status argument, so the status and the creation date never change. */
    method UpdateDetails(title: string, description: string, due: Option<ValidDate>,
                         priority: string, today: ValidDate) returns (r: Outcome<TaskError>)
      requires Valid()
      modifies this
      ensures Valid() && created == old(created) && status == old(status)
      ensures (Fields(), r) == ApplyDetails(old(Fields()), title, description, due, priority, "", today)
    {
      if title != "" {
        this.title := title;
      }
      if description != "" {
        this.description := description;
      }
      if due.Some? {
        if due.value.Before(today) {
          return Fail(PastDueDate);
        }
        this.due := due.value;
      }
      if priority != "" {
        if priority !in Priorities {
          return Fail(InvalidPriority);
        }
        this.priority := priority;
      }
      return Pass;
    }

    /** `to_dict()`: the six keys, dates in ISO form (see `Tasks.ToDict`). */
    function ToDict(): map<string, Value>
      reads this
    {
      Tasks.ToDict(Fields(), created)
    }
  }
}
