/** `TaskController`: the six request handlers. Each is a short chain of
    guards that either answers with the store untouched or performs one store
    write. The authenticated principal is reduced to the requester's username,
    the user repository to a map from username to user, and the bound form to a
    `Task` entity plus whether data binding already recorded a conversion
    error (a non-numeric id, say). */
module Controller {
  import opened Wrappers
  import opened Entity
  import opened Service

  /** Why a form is shown again. */
  datatype Rejection =
    | ConstraintViolations  // the binding result already holds errors
    | InvalidDate           // `isValidDate` said no; rejected on `dueDate`

  /** What a rendered view shows. */
  datatype Page =
    | TaskList(tasks: map<int, TaskData>)  // the `tasks` attribute of the list view
    | TaskForm(task: TaskData)             // the `task` attribute of a form view

  /** The handler's answer: a view name, a view re-rendered with errors, or a
      redirect target (the part after `redirect:`). */
  datatype Outcome =
    | View(name: string, page: Page)
    | ViewWithErrors(name: string, cause: Rejection)
    | Redirect(path: string)

  /** `result.hasErrors()`: a binding error, or any constraint violation of `@Valid`. */
  predicate HasErrors(form: TaskData, bindingFailed: bool) {
    bindingFailed || !IsValid(form)
  }

  /** The user repository answers with a user of the asked name, and distinct
      names belong to distinct user keys. */
  predicate DirectoryConsistent(users: map<string, User>) {
    && (forall n :: n in users ==> users[n].username == n)
    && (forall a, b :: a in users && b in users && users[a].id == users[b].id ==> a == b)
  }

  /** Every stored owner is the user the repository knows under that name. */
  predicate OwnersRegistered(rows: map<int, TaskData>, users: map<string, User>) {
    forall k :: k in rows ==>
      rows[k].user.Some? && rows[k].user.value.username in users
      && users[rows[k].user.value.username] == rows[k].user.value
  }

  /** The list view selects rows by the owner's key, while edit and delete
      compare usernames. With a consistent user repository the two agree: the
      requester's list holds exactly the rows the requester may edit or delete. */
  lemma ListedIffOwned(rows: map<int, TaskData>, users: map<string, User>, requester: string)
    requires DirectoryConsistent(users) && OwnersRegistered(rows, users) && requester in users
    ensures forall k :: k in TasksOf(rows, users[requester]) <==> k in rows && OwnedBy(rows[k], requester)
  {
  }

  /** A row that passed the form constraints and the date parse. */
  predicate Admitted(t: TaskData, parsesAsDate: string -> bool) {
    IsValid(t) && parsesAsDate(t.dueDate.value)
  }

  predicate RowsAdmitted(rows: map<int, TaskData>, parsesAsDate: string -> bool) {
    forall k :: k in rows ==> Admitted(rows[k], parsesAsDate)
  }

  /** Writing an admitted row keeps every row admitted. */
  lemma WriteKeepsAdmitted(rows: map<int, TaskData>, k: int, t: TaskData, parsesAsDate: string -> bool)
    requires RowsAdmitted(rows, parsesAsDate) && Admitted(t, parsesAsDate)
    ensures RowsAdmitted(rows[k := t], parsesAsDate)
  {
  }

  /** Validity depends only on the four fields an edit copies from the form,
      so the edited row is admitted exactly when the form is. */
  lemma EditAdmittedIff(was: TaskData, form: TaskData, parsesAsDate: string -> bool)
    ensures Admitted(was.(title := form.title, description := form.description,
                          priority := form.priority, dueDate := form.dueDate), parsesAsDate)
        <==> Admitted(form, parsesAsDate)
  {
  }

  class TaskController {
    const service: TaskService

    constructor (service: TaskService)
      ensures this.service == service
    {
      this.service := service;
    }

    /** Every stored row passed the form constraints and the date parse: what
        the handlers write always has. */
    ghost predicate AllAdmitted()
      reads this, service
    {
      RowsAdmitted(service.rows, service.parsesAsDate)
    }

    /** `GET /tasks`. */
    method ListTasks(requester: string, users: map<string, User>) returns (o: Outcome)
      ensures requester !in users ==> o == Redirect("/login")
      ensures requester in users ==> o == View("tasks", TaskList(TasksOf(service.rows, users[requester])))
    {
      if requester !in users {
        return Redirect("/login");
      }
      var tasks := service.FindAllByUser(users[requester]);
      o := View("tasks", TaskList(tasks));
    }

    /** `GET /tasks/add`: a form over an empty task. */
    method ShowAddTaskForm() returns (o: Outcome)
      ensures o == View("add-task", TaskForm(Blank))
    {
      var task := new Task();
      o := View("add-task", TaskForm(task.Data()));
    }

    /** `POST /tasks/add`. The constraints are checked first, the date parse
        second, the requester last; only then is the bound task, owner set and
        every other field (its id included) as bound, saved once. */
    method AddTask(requester: string, users: map<string, User>, form: Task, bindingFailed: bool)
      returns (o: Outcome)
      requires service.Valid()
      modifies service, form
      ensures service.Valid()
      ensures old(AllAdmitted()) ==> AllAdmitted()
      ensures HasErrors(old(form.Data()), bindingFailed) ==>
        o == ViewWithErrors("add-task", ConstraintViolations) && unchanged(service, form)
      ensures !HasErrors(old(form.Data()), bindingFailed) && !service.parsesAsDate(old(form.dueDate).value) ==>
        o == ViewWithErrors("add-task", InvalidDate) && unchanged(service, form)
      ensures !HasErrors(old(form.Data()), bindingFailed) && service.parsesAsDate(old(form.dueDate).value) ==>
        if requester !in users then
          o == Redirect("/login") && unchanged(service, form)
        else
          var f := old(form.Data());
          var k := if f.id.Some? then f.id.value else old(service.nextId);
          && o == Redirect("/tasks")
          && form.Data() == f.(id := Some(k), user := Some(users[requester]))
          && service.rows == old(service.rows)[k := form.Data()]
          && service.nextId == if k < old(service.nextId) then old(service.nextId) else k + 1
    {
      if bindingFailed || !IsValid(form.Data()) {
        return ViewWithErrors("add-task", ConstraintViolations);
      }
      var dateOk := service.IsValidDate(form.dueDate.value);
      if !dateOk {
        return ViewWithErrors("add-task", InvalidDate);
      }
      if requester !in users {
        return Redirect("/login");
      }
      form.SetUser(Some(users[requester]));
      var _ := service.Save(form);
      o := Redirect("/tasks");
    }

    /** `GET /tasks/edit/{id}`: a missing task and someone else's task are
        answered alike, by a redirect to the list. */
    method ShowEditTaskForm(id: int, requester: string) returns (o: Outcome)
      ensures id !in service.rows || !OwnedBy(service.rows[id], requester) ==> o == Redirect("/tasks")
      ensures id in service.rows && OwnedBy(service.rows[id], requester) ==>
        o == View("edit-task", TaskForm(service.rows[id]))
    {
      var found := service.FindById(id);
      if found.None? || !OwnedBy(found.value.Data(), requester) {
        return Redirect("/tasks");
      }
      o := View("edit-task", TaskForm(found.value.Data()));
    }

    /** `POST /tasks/edit/{id}`. Validation comes before the lookup, so a
        rejection does not depend on who owns the task. On success exactly the
        title, description, priority and due date of that one row are replaced. */
    method EditTask(id: int, requester: string, form: Task, bindingFailed: bool) returns (o: Outcome)
      requires service.Valid()
      modifies service
      ensures service.Valid()
      ensures old(AllAdmitted()) ==> AllAdmitted()
      ensures HasErrors(form.Data(), bindingFailed) ==>
        o == ViewWithErrors("edit-task", ConstraintViolations) && unchanged(service)
      ensures !HasErrors(form.Data(), bindingFailed) && !service.parsesAsDate(form.dueDate.value) ==>
        o == ViewWithErrors("edit-task", InvalidDate) && unchanged(service)
      ensures !HasErrors(form.Data(), bindingFailed) && service.parsesAsDate(form.dueDate.value) ==>
        && o == Redirect("/tasks")
        && service.nextId == old(service.nextId)
        && if id in old(service.rows) && OwnedBy(old(service.rows)[id], requester) then
             var was := old(service.rows)[id];
             service.rows == old(service.rows)[id := was.(title := form.title, description := form.description,
                                                          priority := form.priority, dueDate := form.dueDate)]
           else
             service.rows == old(service.rows)
    {
      if bindingFailed || !IsValid(form.Data()) {
        return ViewWithErrors("edit-task", ConstraintViolations);
      }
      var dateOk := service.IsValidDate(form.dueDate.value);
      if !dateOk {
        return ViewWithErrors("edit-task", InvalidDate);
      }
      var found := service.FindById(id);
      if found.None? || !OwnedBy(found.value.Data(), requester) {
        return Redirect("/tasks");
      }
      var existing := found.value;
      existing.SetTitle(form.title);
      existing.SetDescription(form.description);
      existing.SetPriority(form.priority);
      existing.SetDueDate(form.dueDate);
      ghost var before := service.rows;
      ghost var edited := existing.Data();
      var _ := service.Save(existing);
      if RowsAdmitted(before, service.parsesAsDate) {
        EditAdmittedIff(before[id], form.Data(), service.parsesAsDate);
        WriteKeepsAdmitted(before, id, edited, service.parsesAsDate);
      }
      o := Redirect("/tasks");
    }

    /** `GET /tasks/delete/{id}`: removes the row only when it exists and the
        requester owns it; answers with the list either way. */
    method DeleteTask(id: int, requester: string) returns (o: Outcome)
      requires service.Valid()
      modifies service
      ensures service.Valid()
      ensures old(AllAdmitted()) ==> AllAdmitted()
      ensures o == Redirect("/tasks")
      ensures service.nextId == old(service.nextId)
      ensures service.rows ==
        if id in old(service.rows) && OwnedBy(old(service.rows)[id], requester) then old(service.rows) - {id}
        else old(service.rows)
    {
      var found := service.FindById(id);
      if found.Some? && OwnedBy(found.value.Data(), requester) {
        service.DeleteById(id);
      }
      o := Redirect("/tasks");
    }
  }
}
