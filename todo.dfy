/** todo.py: a `Task` whose fields are updated in place, and a `TaskManager` that keeps
    tasks in a dict under ids handed out by a counter. */
module Todo {
  import opened Common
  import opened Dates
  import opened PyDict
  import opened Tasks

  class Task {
    var title: string
    var description: string
    var due: ValidDate
    var priority: string
    var status: string

    /** What the constructor and every update keep: an allowed priority and status. */
    ghost predicate Valid()
      reads this
    {
      priority in Priorities && status in Statuses
    }

    function Fields(): Details
      reads this
    {
      Details(title, description, due, priority, status)
    }

    constructor Init(d: Details)
      ensures Fields() == d
    {
      title, description, due, priority, status := d.title, d.description, d.due, d.priority, d.status;
    }

    /** `Task(title, description, due_date, priority, status)`: raises `ValueError` for a
        priority or status outside the allowed ones, or a due date before today. */
    static method New(title: string, description: string, due: ValidDate, priority: string,
                      status: string, today: ValidDate) returns (r: Result<Task, TaskError>)
      ensures r.Err? <==> CheckNew(priority, status, due, today).Fail?
      ensures r.Err? ==> CheckNew(priority, status, due, today) == Fail(r.error)
      ensures r.Ok? ==> fresh(r.value) && r.value.Valid() &&
                        r.value.Fields() == Details(title, description, due, priority, status)
    {
      if priority !in Priorities {
        return Err(InvalidPriority);
      }
      if status !in Statuses {
        return Err(InvalidStatus);
      }
      if due.Before(today) {
        return Err(PastDueDate);
      }
      var t := new Task.Init(Details(title, description, due, priority, status));
      return Ok(t);
    }

    /** `update_status(new_status)`: sets the status, or raises and changes nothing. */
    method UpdateStatus(newStatus: string) returns (r: Outcome<TaskError>)
      requires Valid()
      modifies this
      ensures Valid()
      ensures r == (if newStatus in Statuses then Pass else Fail(InvalidStatus))
      ensures Fields() == if r.Pass? then old(Fields()).(status := newStatus) else old(Fields())
    {
      if newStatus !in Statuses {
        return Fail(InvalidStatus);
      }
      status := newStatus;
      return Pass;
    }

    /** `update_details(...)`, with the effect `ApplyDetails` describes. */
    method UpdateDetails(title: string, description: string, due: Option<ValidDate>,
                         priority: string, status: string, today: ValidDate) returns (r: Outcome<TaskError>)
      requires Valid()
      modifies this
      ensures Valid()
      ensures (Fields(), r) == ApplyDetails(old(Fields()), title, description, due, priority, status, today)
    {
      if title != "" {
        this.title := title;
      }
      if description != "" {
        this.description := description;
      }
      if due.Some? {
        if due.value.Before(today) {
          return Fail(PastDueDate);
        }
        this.due := due.value;
      }
      if priority != "" {
        if priority !in Priorities {
          return Fail(InvalidPriority);
        }
        this.priority := priority;
      }
      if status != "" {
        if status !in Statuses {
          return Fail(InvalidStatus);
        }
        this.status := status;
      }
      return Pass;
    }
  }

  /** Every id is below the counter (so the counter's next value is fresh), no task
      object sits under two ids, and every task is valid. */
  ghost predicate TasksOk(items: map<int, Task>, counter: int)
    reads items.Values
  {
    (forall id :: id in items ==> id < counter) &&
    (forall a, b :: a in items && b in items && a != b ==> items[a] != items[b]) &&
    (forall t :: t in items.Values ==> t.Valid())
  }

  /** The details of every stored task, by id. */
  function ViewOf(items: map<int, Task>): map<int, Details>
    reads items.Values
  {
    map id | id in items :: items[id].Fields()
  }

  /** A valid task stored nowhere yet, put under the counter's value, keeps the
      invariant once the counter moves on. */
  lemma OkAfterPut(items: map<int, Task>, counter: int, t: Task)
    requires TasksOk(items, counter) && t.Valid() && t !in items.Values
    ensures TasksOk(items[counter := t], counter + 1)
  {
  }

  /** Putting a task under a new id adds exactly its details to the view. */
  lemma ViewOfPut(items: map<int, Task>, id: int, t: Task)
    requires id !in items
    ensures ViewOf(items[id := t]) == ViewOf(items)[id := t.Fields()]
  {
  }

  /** Taking a task out keeps the invariant. */
  lemma OkAfterRemove(items: map<int, Task>, counter: int, id: int)
    requires TasksOk(items, counter)
    ensures TasksOk(items - {id}, counter)
  {
  }

  /** Taking a task out removes exactly its entry from the view. */
  lemma ViewOfRemove(items: map<int, Task>, id: int)
    ensures ViewOf(items - {id}) == ViewOf(items) - {id}
  {
  }

  class TaskManager {
    var tasks: Dict<int, Task>
    var counter: int

    /** The dict is well formed, every id is below the counter (so the counter's next
        value is fresh), no task object sits under two ids, and every task is valid. */
    ghost predicate Valid()
      reads this, tasks.items.Values
    {
      tasks.Valid() && TasksOk(tasks.items, counter)
    }

    /** The details of every stored task, by id. */
    function View(): map<int, Details>
      reads this, tasks.items.Values
    {
      ViewOf(tasks.items)
    }

    constructor ()
      ensures Valid() && tasks == Empty() && counter == 1
    {
      tasks := Empty();
      counter := 1;
    }

    /** The step of `add_task` that puts a new task under the counter's value and
        moves the counter on. */
    method Store(t: Task) returns (id: int)
      requires Valid() && t.Valid() && t !in tasks.items.Values
      modifies this
      ensures Valid()
      ensures id == old(counter) && id !in old(tasks.items) && counter == old(counter) + 1
      ensures tasks.keys == old(tasks.keys) + [id] && tasks.items == old(tasks.items)[id := t]
      ensures View() == old(View())[id := t.Fields()]
    {
      id := counter;
      OkAfterPut(tasks.items, counter, t);
      ViewOfPut(tasks.items, id, t);
      tasks, counter := tasks.Put(id, t), counter + 1;
    }

    /** `add_task(...)`: a task that passes the constructor's checks is stored under the
        counter's current value, which is returned; the counter moves on by one. */
    method AddTask(title: string, description: string, due: ValidDate, priority: string,
                   status: string, today: ValidDate) returns (r: Result<int, TaskError>)
      requires Valid()
      modifies this
      ensures Valid()
      ensures r.Ok? <==> CheckNew(priority, status, due, today).Pass?
      ensures r.Err? ==> CheckNew(priority, status, due, today) == Fail(r.error) &&
                         tasks == old(tasks) && counter == old(counter)
      ensures r.Ok? ==>
        r.value == old(counter) && r.value !in old(tasks.items) && counter == old(counter) + 1 &&
        tasks.keys == old(tasks.keys) + [r.value] &&
        View() == old(View())[r.value := Details(title, description, due, priority, status)]
    {
      var made := Task.New(title, description, due, priority, status, today);
      if made.Err? {
        return Err(made.error);
      }
      var id := Store(made.value);
      return Ok(id);
    }

    /** After a call that changed only the task stored under `id`, and left it valid,
        the manager is still valid and only that entry of its view changed. */
    twostate lemma OnlyOneChanged(id: int)
      requires old(Valid()) && unchanged(this) && id in tasks.items && tasks.items[id].Valid()
      requires forall k :: k in tasks.items && k != id ==> unchanged(tasks.items[k])
      ensures Valid()
      ensures View() == old(View())[id := tasks.items[id].Fields()]
    {
      forall k | k in tasks.items
        ensures View()[k] == old(View())[id := tasks.items[id].Fields()][k]
      {
        if k != id {
          assert tasks.items[k].Fields() == old(tasks.items[k].Fields());
        }
      }
    }

    /** `get_task(task_id)`: `None` for an id that is not stored, never an error. */
    method GetTask(id: int) returns (r: Option<Task>)
      ensures r.None? <==> id !in tasks.items
      ensures r.Some? ==> r.value == tasks.items[id]
    {
      return tasks.Get(id);
    }

    /** `update_task_status(task_id, new_status)`: `False` and no change for an unknown id;
        for a stored task an invalid status raises instead of returning `False`. */
    method UpdateTaskStatus(id: int, newStatus: string) returns (r: Result<bool, TaskError>)
      requires Valid()
      modifies if id in tasks.items then {tasks.items[id]} else {}
      ensures Valid()
      ensures r == if id !in tasks.items then Ok(false)
                   else if newStatus in Statuses then Ok(true)
                   else Err(InvalidStatus)
      ensures View() == if r == Ok(true) then old(View())[id := old(View())[id].(status := newStatus)]
                        else old(View())
    {
      var found := GetTask(id);
      if found.None? {
        return Ok(false);
      }
      var outcome := found.value.UpdateStatus(newStatus);
      forall k | k in tasks.items && k != id
        ensures unchanged(tasks.items[k])
      {
        assert tasks.items[k] != tasks.items[id];
      }
      OnlyOneChanged(id);
      if outcome.Fail? {
        return Err(outcome.error);
      }
      return Ok(true);
    }

    /** `delete_task(task_id)`: `True` exactly when the id was stored; only that entry goes. */
    method DeleteTask(id: int) returns (removed: bool)
      requires Valid()
      modifies this
      ensures Valid()
      ensures removed <==> id in old(tasks.items)
      ensures tasks == if removed then old(tasks).Remove(id) else old(tasks)
      ensures counter == old(counter)
      ensures View() == old(View()) - {id}
    {
      if id in tasks.items {
        Drop(id);
        return true;
      }
      return false;
    }

    /** The `del self.tasks[task_id]` step of `delete_task`. */
    method Drop(id: int)
      requires Valid()
      modifies this
      ensures Valid()
      ensures tasks == old(tasks).Remove(id) && counter == old(counter)
      ensures View() == old(View()) - {id}
    {
      OkAfterRemove(tasks.items, counter, id);
      ViewOfRemove(tasks.items, id);
      tasks := tasks.Remove(id);
    }

    /** `update_task_details(task_id, **kwargs)`: `False` and no change for an unknown id;
        otherwise the stored task is updated as `ApplyDetails` says, and a rejected value
        raises. */
    method UpdateTaskDetails(id: int, title: string, description: string, due: Option<ValidDate>,
                             priority: string, status: string, today: ValidDate) returns (r: Result<bool, TaskError>)
      requires Valid()
      modifies if id in tasks.items then {tasks.items[id]} else {}
      ensures Valid()
      ensures id !in tasks.items ==> r == Ok(false) && View() == old(View())
      ensures id in tasks.items ==>
        var applied := ApplyDetails(old(View())[id], title, description, due, priority, status, today);
        View() == old(View())[id := applied.0] &&
        r == if applied.1.Pass? then Ok(true) else Err(applied.1.error)
    {
      var found := GetTask(id);
      if found.None? {
        return Ok(false);
      }
      ghost var before := View();
      ghost var applied := ApplyDetails(before[id], title, description, due, priority, status, today);
      var outcome := found.value.UpdateDetails(title, description, due, priority, status, today);
      assert found.value.Fields() == applied.0 && outcome == applied.1;
      forall k | k in tasks.items && k != id
        ensures unchanged(tasks.items[k])
      {
        assert tasks.items[k] != tasks.items[id];
      }
      OnlyOneChanged(id);
      if outcome.Fail? {
        return Err(outcome.error);
      }
      return Ok(true);
    }

    /** `list_tasks(status, priority)`: in insertion order, the rows of exactly the tasks
        that pass both filters (see `SelectMembership` and `SelectConcat`). */
    method ListTasks(status: Option<string>, priority: Option<string>) returns (rows: seq<Row>)
      requires Valid()
      ensures rows == Select(tasks.keys, View(), status, priority)
    {
      rows := [];
      var i := 0;
      while i < |tasks.keys|
        invariant 0 <= i <= |tasks.keys|
        invariant rows == Select(tasks.keys[..i], View(), status, priority)
      {
        var id := tasks.keys[i];
        var t := tasks.items[id];
        if (status.None? || t.status == status.value) && (priority.None? || t.priority == priority.value) {
          rows := rows + [Row(id, t.title, t.description, t.status, t.due, t.priority)];
        }
        assert tasks.keys[..i + 1][..i] == tasks.keys[..i];
        i := i + 1;
      }
      assert tasks.keys[..i] == tasks.keys;
    }
  }
}
