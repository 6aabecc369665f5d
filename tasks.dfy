/** The task service: a user's to-do items, listed incomplete-first, created
    and edited with a trimmed title and optional description, and toggled
    between the "active" and "completed" states. */
module Tasks {
  import opened Wrappers
  import opened Seqs
  import opened Text
  import opened Store

  const ErrInvalidStatus: string := "Invalid status. Must be \"active\" or \"completed\""
  const ErrTitleRequired: string := "Task title is required"
  const ErrTitleTooLong: string := "Task title must be less than 200 characters"
  const ErrDescriptionTooLong: string := "Task description must be less than 1000 characters"
  const ErrTaskNotFound: string := "Task not found"

  const MaxTitleLength: nat := 200
  const MaxDescriptionLength: nat := 1000

  const Active: string := "active"
  const Completed: string := "completed"

  /** The `completed` value a status filter selects: none for an absent
      status, and an error for any word other than the two statuses. */
  function StatusFilter(status: string): (r: Result<Option<bool>>)
    ensures r.Err? <==> status != "" && status != Active && status != Completed
    ensures r.Err? ==> r.error == ErrInvalidStatus
    ensures r == Ok(None) <==> status == ""
    ensures r.Ok? && r.value.Some? ==> (r.value.value <==> status == Completed)
  {
    if status == "" then Ok(None)
    else if status != Active && status != Completed then Err(ErrInvalidStatus)
    else Ok(Some(status == Completed))
  }

  /** The status word of a completion flag. */
  function StatusLabel(completed: bool): (r: string)
    ensures r == Completed <==> completed
    ensures r == Active <==> !completed
  {
    if completed then Completed else Active
  }

  /** The validation shared by create and update: the trimmed title must be
      non-empty and at most 200 long, and the description as given at most
      1000 long. */
  function TaskError(title: string, description: string): (r: Option<string>)
    ensures r == Some(ErrTitleRequired) <==> IsBlank(title)
    ensures r == Some(ErrTitleTooLong) <==> !IsBlank(title) && |Trim(title)| > MaxTitleLength
    ensures r == Some(ErrDescriptionTooLong) <==>
      !IsBlank(title) && |Trim(title)| <= MaxTitleLength && |description| > MaxDescriptionLength
    ensures r.None? <==> 0 < |Trim(title)| <= MaxTitleLength && |description| <= MaxDescriptionLength
  {
    if Trim(title) == [] then Some(ErrTitleRequired)
    else if |Trim(title)| > MaxTitleLength then Some(ErrTitleTooLong)
    else if |description| > MaxDescriptionLength then Some(ErrDescriptionTooLong)
    else None
  }

  /** The stored description: none for an absent one, otherwise trimmed (a
      description of spaces only is stored as the empty text). */
  function StoredDescription(description: string): (r: Option<string>)
    ensures r.None? <==> description == ""
    ensures r.Some? ==> r.value == Trim(description) && |r.value| <= |description|
    ensures r.Some? ==> r.value == [] || (!IsSpace(r.value[0]) && !IsSpace(r.value[|r.value| - 1]))
  {
    if description == "" then None else Some(Trim(description))
  }

  /** `where: { userId }`, narrowed to one `completed` value when given. */
  predicate TaskSelected(t: Task, userId: Id, completed: Option<bool>) {
    t.userId == userId && (completed.None? || t.completed == completed.value)
  }

  /** `orderBy: [{ completed: 'asc' }, { createdAt: 'desc' }]`. */
  predicate TaskBefore(a: Task, b: Task) {
    (!a.completed && b.completed) || (a.completed == b.completed && a.createdAt >= b.createdAt)
  }

  lemma TaskOrderIsTotal()
    ensures TotalPreorder(TaskBefore)
  {
  }

  /** The user's tasks (of one status, when a status is given), the incomplete
      ones first and each group newest first. */
  method GetAllTasks(db: Db, userId: Id, status: string) returns (r: Result<seq<Task>>)
    ensures r.Err? <==> StatusFilter(status).Err?
    ensures r.Err? ==> r.error == ErrInvalidStatus
    ensures r.Ok? ==>
      var sel := StatusFilter(status).value;
      && (forall t :: t in r.value <==> t in db.tasks && TaskSelected(t, userId, sel))
      && multiset(r.value) == multiset(Filter(db.tasks, (t: Task) => TaskSelected(t, userId, sel)))
    ensures r.Ok? ==> forall i, j :: 0 <= i < j < |r.value| ==>
      (!r.value[i].completed && r.value[j].completed)
      || (r.value[i].completed == r.value[j].completed && r.value[i].createdAt >= r.value[j].createdAt)
  {
    var filter := StatusFilter(status);
    if filter.Err? {
      return Err(filter.error);
    }
    var sel := filter.value;
    TaskOrderIsTotal();
    var ts := SelectSorted(db.tasks, (t: Task) => TaskSelected(t, userId, sel), TaskBefore);
    r := Ok(ts);
  }

  /** The user's incomplete tasks, newest first. */
  method GetActiveTasks(db: Db, userId: Id) returns (r: seq<Task>)
    ensures forall t :: t in r <==> t in db.tasks && t.userId == userId && !t.completed
    ensures forall i, j :: 0 <= i < j < |r| ==> r[i].createdAt >= r[j].createdAt
    ensures multiset(r) == multiset(Filter(db.tasks, (t: Task) => TaskSelected(t, userId, Some(false))))
  {
    var all := GetAllTasks(db, userId, Active);
    r := all.value;
  }

  /** The user's completed tasks, newest first. */
  method GetCompletedTasks(db: Db, userId: Id) returns (r: seq<Task>)
    ensures forall t :: t in r <==> t in db.tasks && t.userId == userId && t.completed
    ensures forall i, j :: 0 <= i < j < |r| ==> r[i].createdAt >= r[j].createdAt
    ensures multiset(r) == multiset(Filter(db.tasks, (t: Task) => TaskSelected(t, userId, Some(true))))
  {
    var all := GetAllTasks(db, userId, Completed);
    r := all.value;
  }

  /** One of the user's tasks, looked up by id and owner together. */
  method GetTaskById(db: Db, taskId: Id, userId: Id) returns (r: Result<Task>)
    ensures r.Ok? <==> exists t :: t in db.tasks && t.id == taskId && t.userId == userId
    ensures r.Ok? ==> r.value in db.tasks && r.value.id == taskId && r.value.userId == userId
    ensures r.Err? ==> r.error == ErrTaskNotFound
  {
    var found := OwnedTask(db.tasks, taskId, userId);
    if found.None? {
      return Err(ErrTaskNotFound);
    }
    r := Ok(db.tasks[found.value]);
  }

  /** A new, incomplete task with a trimmed title. */
  method CreateTask(db: Db, userId: Id, title: string, description: string, now: int)
    returns (r: Result<Task>)
    requires db.Valid()
    modifies db
    ensures db.Valid()
    ensures db.users == old(db.users) && db.folders == old(db.folders) && db.notes == old(db.notes)
    ensures TaskError(title, description).Some? ==>
      r == Err(TaskError(title, description).value) && db.tasks == old(db.tasks) && db.nextId == old(db.nextId)
    ensures TaskError(title, description).None? ==>
      && r == Ok(Task(old(db.nextId), Trim(title), StoredDescription(description), false, userId, now))
      && db.tasks == old(db.tasks) + [r.value]
    ensures r.Ok? ==> 0 < |r.value.title| <= MaxTitleLength && !r.value.completed
  {
    var invalid := TaskError(title, description);
    if invalid.Some? {
      return Err(invalid.value);
    }
    var task := Task(db.nextId, Trim(title), StoredDescription(description), false, userId, now);
    db.AddTask(task);
    r := Ok(task);
  }

  /** Rewrites the title and description of one of the user's tasks; its
      completion state and creation time are kept. */
  method UpdateTask(db: Db, taskId: Id, userId: Id, title: string, description: string)
    returns (r: Result<Task>)
    requires db.Valid()
    modifies db
    ensures db.Valid()
    ensures db.users == old(db.users) && db.folders == old(db.folders) && db.notes == old(db.notes)
    ensures db.nextId == old(db.nextId)
    ensures r.Err? ==> db.tasks == old(db.tasks)
    ensures
      var k := OwnedTask(old(db.tasks), taskId, userId);
      && (TaskError(title, description).Some? ==> r == Err(TaskError(title, description).value))
      && (TaskError(title, description).None? && k.None? ==> r == Err(ErrTaskNotFound))
      && (TaskError(title, description).None? && k.Some? ==>
            && r == Ok(old(db.tasks)[k.value].(title := Trim(title), description := StoredDescription(description)))
            && db.tasks == old(db.tasks)[k.value := r.value])
    ensures r.Ok? ==> r.value.id == taskId && r.value.userId == userId
  {
    var invalid := TaskError(title, description);
    if invalid.Some? {
      return Err(invalid.value);
    }
    var existing := OwnedTask(db.tasks, taskId, userId);
    if existing.None? {
      return Err(ErrTaskNotFound);
    }
    var k := existing.value;
    var updated := db.tasks[k].(title := Trim(title), description := StoredDescription(description));
    db.ReplaceTask(k, updated);
    r := Ok(updated);
  }

  /** Removes exactly the named task of the user. */
  method DeleteTask(db: Db, taskId: Id, userId: Id) returns (r: Result<()>)
    requires db.Valid()
    modifies db
    ensures db.Valid()
    ensures db.users == old(db.users) && db.folders == old(db.folders) && db.notes == old(db.notes)
    ensures db.nextId == old(db.nextId)
    ensures
      var k := OwnedTask(old(db.tasks), taskId, userId);
      && (k.None? ==> r == Err(ErrTaskNotFound) && db.tasks == old(db.tasks))
      && (k.Some? ==> r == Ok(()) && db.tasks == RemoveAt(old(db.tasks), k.value))
    ensures r.Ok? ==> forall t :: t in db.tasks <==> t in old(db.tasks) && t.id != taskId
  {
    var existing := OwnedTask(db.tasks, taskId, userId);
    if existing.None? {
      return Err(ErrTaskNotFound);
    }
    db.RemoveTask(existing.value);
    r := Ok(());
  }

  /** The result of a toggle: the updated task and the status words before
      and after. */
  datatype Toggle = Toggle(task: Task, previousStatus: string, newStatus: string)

  /** Flips the completion state of one of the user's tasks. */
  method ToggleTaskStatus(db: Db, taskId: Id, userId: Id) returns (r: Result<Toggle>)
    requires db.Valid()
    modifies db
    ensures db.Valid()
    ensures db.users == old(db.users) && db.folders == old(db.folders) && db.notes == old(db.notes)
    ensures db.nextId == old(db.nextId)
    ensures
      var k := OwnedTask(old(db.tasks), taskId, userId);
      && (k.None? ==> r == Err(ErrTaskNotFound) && db.tasks == old(db.tasks))
      && (k.Some? ==>
            var t := old(db.tasks)[k.value];
            && r == Ok(Toggle(t.(completed := !t.completed), StatusLabel(t.completed), StatusLabel(!t.completed)))
            && db.tasks == old(db.tasks)[k.value := r.value.task])
    ensures r.Ok? ==> r.value.previousStatus != r.value.newStatus
    ensures r.Ok? ==> r.value.newStatus == StatusLabel(r.value.task.completed)
  {
    var existing := OwnedTask(db.tasks, taskId, userId);
    if existing.None? {
      return Err(ErrTaskNotFound);
    }
    var k := existing.value;
    var t := db.tasks[k];
    var updated := t.(completed := !t.completed);
    db.ReplaceTask(k, updated);
    r := Ok(Toggle(updated, StatusLabel(t.completed), StatusLabel(!t.completed)));
  }
}
