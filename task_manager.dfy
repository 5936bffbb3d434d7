/** task_manager.py: like todo.py, but a new task always starts "To Do" and records the
    day it was created, and a task can be written to and read back from a dict. */
module TaskManager {
  import opened Common
  import opened Dates
  import opened PyDict
  import opened PyValue
  import opened Tasks

  /** What `from_dict` raises: a missing key (`KeyError`), a due date that is not an ISO
      date string (`TypeError`/`ValueError`), a value that is not text where the model
      keeps text, or a rejection by the constructor. */
  datatype LoadError = MissingKey(key: string) | BadDate | NotText(key: string) | Rejected(error: TaskError)

  /** `Task.from_dict(data)` evaluated on `today`: the constructor is called with the
      title, description, parsed due date and priority, so status and creation date are
      not read back but start afresh. */
  function Decode(data: map<string, Value>, today: ValidDate): (r: Result<(Details, ValidDate), LoadError>)
    ensures r.Ok? ==> r.value.0.status == "To Do" && r.value.1 == today
    ensures r.Ok? ==> r.value.0.priority in Priorities && !r.value.0.due.Before(today)
    ensures r.Ok? <==>
      "title" in data && "description" in data && "due_date" in data && "priority" in data &&
      data["title"].Str? && data["description"].Str? &&
      data["due_date"].Str? && ParseIso(data["due_date"].s).Some? &&
      data["priority"].Str? && data["priority"].s in Priorities &&
      !ParseIso(data["due_date"].s).value.Before(today)
    ensures r == Err(BadDate) ==>
      "title" in data && "description" in data && "due_date" in data &&
      (!data["due_date"].Str? || ParseIso(data["due_date"].s).None?)
    ensures r == Err(Rejected(InvalidPriority)) ==>
      "priority" in data && (!data["priority"].Str? || data["priority"].s !in Priorities)
    ensures r.Ok? ==> "title" in data && data["title"] == Str(r.value.0.title) &&
                      "description" in data && data["description"] == Str(r.value.0.description) &&
                      "priority" in data && data["priority"] == Str(r.value.0.priority) &&
                      "due_date" in data && data["due_date"].Str? && ParseIso(data["due_date"].s) == Some(r.value.0.due)
    // a missing key is the first one absent, in the order the constructor reads them
    ensures r.Err? && r.error.MissingKey? ==> r.error.key !in data
    ensures r == Err(MissingKey("description")) ==> "title" in data
    ensures r == Err(MissingKey("due_date")) ==> "title" in data && "description" in data
    ensures r == Err(MissingKey("priority")) ==> "title" in data && "description" in data && "due_date" in data
    ensures r == Err(Rejected(PastDueDate)) ==>
      "due_date" in data && data["due_date"].Str? && ParseIso(data["due_date"].s).Some? &&
      ParseIso(data["due_date"].s).value.Before(today)
  {
    if "title" !in data then Err(MissingKey("title"))
    else if "description" !in data then Err(MissingKey("description"))
    else if "due_date" !in data then Err(MissingKey("due_date"))
    else if !data["due_date"].Str? || ParseIso(data["due_date"].s).None? then Err(BadDate)
    else if "priority" !in data then Err(MissingKey("priority"))
    else if !data["title"].Str? then Err(NotText("title"))
    else if !data["description"].Str? then Err(NotText("description"))
    else
      var due: ValidDate := ParseIso(data["due_date"].s).value;
      var priority := data["priority"];
      if !priority.Str? || priority.s !in Priorities then Err(Rejected(InvalidPriority))
      else if due.Before(today) then Err(Rejected(PastDueDate))
      else Ok((Details(data["title"].s, data["description"].s, due, priority.s, "To Do"), today))
  }

  /** `from_dict(to_dict(t))`: title, description, due date and priority come back; the
      status is reset to "To Do" and the creation date to the day of loading. A task whose
      due date has passed by then can no longer be loaded. */
  lemma FromDictToDict(d: Details, created: ValidDate, today: ValidDate)
    requires d.priority in Priorities
    ensures Decode(ToDict(d, created), today) ==
            if d.due.Before(today) then Err(Rejected(PastDueDate))
            else Ok((d.(status := "To Do"), today))
  {
    IsoRoundTrip(d.due);
  }

  class Task {
    var title: string
    var description: string
    var due: ValidDate
    var priority: string
    var status: string
    var created: ValidDate

    ghost predicate Valid()
      reads this
    {
      priority in Priorities && status in Statuses
    }

    function Fields(): Details
      reads this
    {
      Details(title, description, due, priority, status)
    }

    constructor Init(d: Details, created: ValidDate)
      ensures Fields() == d && this.created == created
    {
      title, description, due, priority, status := d.title, d.description, d.due, d.priority, d.status;
      this.created := created;
    }

    /** `Task(title, description, due_date, priority)`: raises for a priority outside the
        allowed ones or a due date before today; otherwise the task is "To Do" and was
        created today. */
    static method New(title: string, description: string, due: ValidDate, priority: string,
                      today: ValidDate) returns (r: Result<Task, TaskError>)
      ensures r.Err? <==> priority !in Priorities || due.Before(today)
      ensures r.Err? ==> r.error == if priority !in Priorities then InvalidPriority else PastDueDate
      ensures r.Ok? ==> fresh(r.value) && r.value.Valid() && r.value.created == today &&
                        r.value.Fields() == Details(title, description, due, priority, "To Do")
    {
      if priority !in Priorities {
        return Err(InvalidPriority);
      }
      if due.Before(today) {
        return Err(PastDueDate);
      }
      var t := new Task.Init(Details(title, description, due, priority, "To Do"), today);
      return Ok(t);
    }

    /** `Task.from_dict(data)`. */
    static method FromDict(data: map<string, Value>, today: ValidDate) returns (r: Result<Task, LoadError>)
      ensures r.Err? <==> Decode(data, today).Err?
      ensures r.Err? ==> r.error == Decode(data, today).error
      ensures r.Ok? ==> fresh(r.value) && r.value.Valid() &&
                        (r.value.Fields(), r.value.created) == Decode(data, today).value
    {
      var decoded := Decode(data, today);
      if decoded.Err? {
        return Err(decoded.error);
      }
      var t := new Task.Init(decoded.value.0, decoded.value.1);
      return Ok(t);
    }

    /** `to_dict()`. */
    function ToDict(): map<string, Value>
      reads this
    {
      Tasks.ToDict(Fields(), created)
    }

    /** `update_status(new_status)`: sets the status, or raises and changes nothing. */
    method UpdateStatus(newStatus: string) returns (r: Outcome<TaskError>)
      requires Valid()
      modifies this
      ensures Valid() && created == old(created)
      ensures r == (if newStatus in Statuses then Pass else Fail(InvalidStatus))
      ensures Fields() == if r.Pass? then old(Fields()).(status := newStatus) else old(Fields())
    {
      if newStatus !in Statuses {
        return Fail(InvalidStatus);
      }
      status := newStatus;
      return Pass;
    }

    /** `update_details(title, description, due_date, priority)`: as `ApplyDetails` with
        no status argument; the status is never touched. */
    method UpdateDetails(title: string, description: string, due: Option<ValidDate>,
                         priority: string, today: ValidDate) returns (r: Outcome<TaskError>)
      requires Valid()
      modifies this
      ensures Valid() && created == old(created)
      ensures (Fields(), r) == ApplyDetails(old(Fields()), title, description, due, priority, "", today)
    {
      if title != "" {
        this.title := title;
      }
      if description != "" {
        this.description := description;
      }
      if due.Some? {
        if due.value.Before(today) {
          return Fail(PastDueDate);
        }
        this.due := due.value;
      }
      if priority != "" {
        if priority !in Priorities {
          return Fail(InvalidPriority);
        }
        this.priority := priority;
      }
      return Pass;
    }
  }

  /** Every id is below the counter (so the counter's next value is fresh), no task
      object sits under two ids, and every task is valid. */
  ghost predicate TasksOk(items: map<int, Task>, counter: int)
    reads items.Values
  {
    (forall id :: id in items ==> id < counter) &&
    (forall a, b :: a in items && b in items && a != b ==> items[a] != items[b]) &&
    (forall t :: t in items.Values ==> t.Valid())
  }

  /** The details of every stored task, by id. */
  function ViewOf(items: map<int, Task>): map<int, Details>
    reads items.Values
  {
    map id | id in items :: items[id].Fields()
  }

  /** A valid task stored nowhere yet, put under the counter's value, keeps the
      invariant once the counter moves on. */
  lemma OkAfterPut(items: map<int, Task>, counter: int, t: Task)
    requires TasksOk(items, counter) && t.Valid() && t !in items.Values
    ensures TasksOk(items[counter := t], counter + 1)
  {
  }

  /** Putting a task under a new id adds exactly its details to the view. */
  lemma ViewOfPut(items: map<int, Task>, id: int, t: Task)
    requires id !in items
    ensures ViewOf(items[id := t]) == ViewOf(items)[id := t.Fields()]
  {
  }

  /** Taking a task out keeps the invariant. */
  lemma OkAfterRemove(items: map<int, Task>, counter: int, id: int)
    requires TasksOk(items, counter)
    ensures TasksOk(items - {id}, counter)
  {
  }

  /** Taking a task out removes exactly its entry from the view. */
  lemma ViewOfRemove(items: map<int, Task>, id: int)
    ensures ViewOf(items - {id}) == ViewOf(items) - {id}
  {
  }

  class TaskManager {
    var tasks: Dict<int, Task>
    var counter: int

    ghost predicate Valid()
      reads this, tasks.items.Values
    {
      tasks.Valid() && TasksOk(tasks.items, counter)
    }

    function View(): map<int, Details>
      reads this, tasks.items.Values
    {
      ViewOf(tasks.items)
    }

    constructor ()
      ensures Valid() && tasks == Empty() && counter == 1
    {
      tasks := Empty();
      counter := 1;
    }

    /** The step of `add_task` that puts a new task under the counter's value and
        moves the counter on. */
    method Store(t: Task) returns (id: int)
      requires Valid() && t.Valid() && t !in tasks.items.Values
      modifies this
      ensures Valid()
      ensures id == old(counter) && id !in old(tasks.items) && counter == old(counter) + 1
      ensures tasks.keys == old(tasks.keys) + [id] && tasks.items == old(tasks.items)[id := t]
      ensures View() == old(View())[id := t.Fields()]
    {
      id := counter;
      OkAfterPut(tasks.items, counter, t);
      ViewOfPut(tasks.items, id, t);
      tasks, counter := tasks.Put(id, t), counter + 1;
    }

    /** `add_task(title, description, due_date, priority)`: the new task goes under the
        counter's value before the call, which is returned; ids only grow. */
    method AddTask(title: string, description: string, due: ValidDate, priority: string,
                   today: ValidDate) returns (r: Result<int, TaskError>)
      requires Valid()
      modifies this
      ensures Valid()
      ensures r.Ok? <==> priority in Priorities && !due.Before(today)
      ensures r.Err? ==> r.error == if priority !in Priorities then InvalidPriority else PastDueDate
      ensures r.Err? ==> tasks == old(tasks) && counter == old(counter)
      ensures r.Ok? ==>
        r.value == old(counter) && r.value !in old(tasks.items) && counter == old(counter) + 1 &&
        (forall id :: id in old(tasks.items) ==> id < r.value) &&
        tasks.keys == old(tasks.keys) + [r.value] &&
        tasks.items[r.value].created == today &&
        View() == old(View())[r.value := Details(title, description, due, priority, "To Do")]
    {
      var made := Task.New(title, description, due, priority, today);
      if made.Err? {
        return Err(made.error);
      }
      var id := Store(made.value);
      return Ok(id);
    }

    /** After a call that changed only the task stored under `id`, and left it valid,
        the manager is still valid and only that entry of its view changed. */
    twostate lemma OnlyOneChanged(id: int)
      requires old(Valid()) && unchanged(this) && id in tasks.items && tasks.items[id].Valid()
      requires forall k :: k in tasks.items && k != id ==> unchanged(tasks.items[k])
      ensures Valid()
      ensures View() == old(View())[id := tasks.items[id].Fields()]
    {
      forall k | k in tasks.items
        ensures View()[k] == old(View())[id := tasks.items[id].Fields()][k]
      {
        if k != id {
          assert tasks.items[k].Fields() == old(tasks.items[k].Fields());
        }
      }
    }

    /** `get_task(task_id)`. */
    method GetTask(id: int) returns (r: Option<Task>)
      ensures r.None? <==> id !in tasks.items
      ensures r.Some? ==> r.value == tasks.items[id]
    {
      return tasks.Get(id);
    }

    /** `update_task_status(task_id, new_status)`. */
    method UpdateTaskStatus(id: int, newStatus: string) returns (r: Result<bool, TaskError>)
      requires Valid()
      modifies if id in tasks.items then {tasks.items[id]} else {}
      ensures Valid()
      ensures r == if id !in tasks.items then Ok(false)
                   else if newStatus in Statuses then Ok(true)
                   else Err(InvalidStatus)
      ensures View() == if r == Ok(true) then old(View())[id := old(View())[id].(status := newStatus)]
                        else old(View())
      ensures id in tasks.items ==> tasks.items[id].created == old(tasks.items[id].created)
    {
      var found := GetTask(id);
      if found.None? {
        return Ok(false);
      }
      var outcome := found.value.UpdateStatus(newStatus);
      forall k | k in tasks.items && k != id
        ensures unchanged(tasks.items[k])
      {
        assert tasks.items[k] != tasks.items[id];
      }
      OnlyOneChanged(id);
      if outcome.Fail? {
        return Err(outcome.error);
      }
      return Ok(true);
    }

    /** `update_task_details(task_id, **kwargs)`. */
    method UpdateTaskDetails(id: int, title: string, description: string, due: Option<ValidDate>,
                             priority: string, today: ValidDate) returns (r: Result<bool, TaskError>)
      requires Valid()
      modifies if id in tasks.items then {tasks.items[id]} else {}
      ensures Valid()
      ensures id !in tasks.items ==> r == Ok(false) && View() == old(View())
      ensures id in tasks.items ==>
        var applied := ApplyDetails(old(View())[id], title, description, due, priority, "", today);
        View() == old(View())[id := applied.0] &&
        r == if applied.1.Pass? then Ok(true) else Err(applied.1.error)
      ensures id in tasks.items ==> tasks.items[id].created == old(tasks.items[id].created)
    {
      var found := GetTask(id);
      if found.None? {
        return Ok(false);
      }
      ghost var before := View();
      ghost var applied := ApplyDetails(before[id], title, description, due, priority, "", today);
      var outcome := found.value.UpdateDetails(title, description, due, priority, today);
      assert found.value.Fields() == applied.0 && outcome == applied.1;
      forall k | k in tasks.items && k != id
        ensures unchanged(tasks.items[k])
      {
        assert tasks.items[k] != tasks.items[id];
      }
      OnlyOneChanged(id);
      if outcome.Fail? {
        return Err(outcome.error);
      }
      return Ok(true);
    }

    /** `delete_task(task_id)`. */
    method DeleteTask(id: int) returns (removed: bool)
      requires Valid()
      modifies this
      ensures Valid()
      ensures removed <==> id in old(tasks.items)
      ensures tasks == if removed then old(tasks).Remove(id) else old(tasks)
      ensures counter == old(counter)
      ensures View() == old(View()) - {id}
    {
      if id in tasks.items {
        Drop(id);
        return true;
      }
      return false;
    }

    /** The `del self.tasks[task_id]` step of `delete_task`. */
    method Drop(id: int)
      requires Valid()
      modifies this
      ensures Valid()
      ensures tasks == old(tasks).Remove(id) && counter == old(counter)
      ensures View() == old(View()) - {id}
    {
      OkAfterRemove(tasks.items, counter, id);
      ViewOfRemove(tasks.items, id);
      tasks := tasks.Remove(id);
    }

    /** `list_tasks(status, priority)`. */
    method ListTasks(status: Option<string>, priority: Option<string>) returns (rows: seq<Row>)
      requires Valid()
      ensures rows == Select(tasks.keys, View(), status, priority)
    {
      rows := [];
      var i := 0;
      while i < |tasks.keys|
        invariant 0 <= i <= |tasks.keys|
        invariant rows == Select(tasks.keys[..i], View(), status, priority)
      {
        var id := tasks.keys[i];
        var t := tasks.items[id];
        if (status.None? || t.status == status.value) && (priority.None? || t.priority == priority.value) {
          rows := rows + [Row(id, t.title, t.description, t.status, t.due, t.priority)];
        }
        assert tasks.keys[..i + 1][..i] == tasks.keys[..i];
        i := i + 1;
      }
      assert tasks.keys[..i] == tasks.keys;
    }
  }
}
