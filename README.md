# Task manager: a verified model of the task store and its request handlers

This project models the core of a Spring Boot task list, in which each
authenticated user creates, lists, edits and deletes their own tasks. The model
covers three parts:

- **`Task`** (`entity.dfy`): the entity, its three-valued `Priority`, and the
  bean-validation constraints a task must satisfy.
- **`TaskService`** (`service.dfy`): a pass-through over the `tasks` table,
  plus the due-date parse check.
- **`TaskController`** (`controller.dfy`): six request handlers. Each is a short
  chain of guards that either answers with the store untouched or performs one
  store write.

Supporting modules:

- `constraints.dfy` gives `@NotBlank` and `@Pattern` as Hibernate Validator
  evaluates them. `@NotBlank` means "present, and `String.trim()` leaves
  something". `@Pattern` means "null, or the whole string matches".
- `wrappers.dfy` holds the `Option` type that stands for Java's nullable
  references and `Optional`.

Modelling choices:

- **Two forms of a task.** A task is a value (`TaskData`, one row of the
  table) and also a mutable entity object (`Task`). Its setters overwrite one
  field in place. The store is a map from id to row. `findById` loads a new
  entity from the row. `editTask` changes that entity through setters and saves
  it back.
- **Parameters instead of collaborators.**
  - The requester's identity is a username.
  - The user repository is a map from username to user.
  - `isValidDate`'s parser is the uninterpreted function `parsesAsDate`.
  - Data binding is the bound entity plus a flag that says whether binding
    already recorded an error.
- **Validity of a stored task.**
  - `Entity.ValidIff` spells out what a valid task is: the title and the
    description are present and contain a character above U+0020, a priority
    is present, and the due date is exactly four ASCII digits, `-`, two digits,
    `-`, two digits. It also shows that, once the due date is present, its
    `@NotBlank` adds nothing to its `@Pattern`. A null due date passes
    `@Pattern` and is rejected only by `@NotBlank`.
  - `TaskController.AllAdmitted` holds when every stored row passed both the
    constraints and the date parse. Every handler preserves it.

Behaviour of the code worth knowing:

- **An add request can take over another user's task.** An `id` bound from an
  add request is kept. `save` then writes the row under that id. So
  `POST /tasks/add` with the id of another user's task overwrites that task and
  makes the requester its owner. `TaskController.AddTask` states this in its
  contract. The edit and delete handlers never change an owner.
- **Impossible calendar dates are accepted.** `isValidDate` uses
  `DateTimeFormatter.ofPattern`, whose default resolver is SMART. It clamps an
  out-of-range day of the month, so `"2023-02-30"` is accepted.
- **The list order depends on the column type.** Priority is stored as its
  name (`EnumType.STRING`), and the listing is ordered by that column. On a
  plain text column the order is high, low, medium, not declaration order.
- **Ownership is checked two ways.** Listing selects rows by the owner's key.
  Edit and delete compare usernames. `Controller.ListedIffOwned` proves that
  the two agree when the user repository is consistent.

## Model

| member | source | states |
|---|---|---|
| `Constraints.TrimLeading` | task-manager-springboot/src/main/java/com/example/taskmanagerspringboot/entity/Task.java:18-22 | the leading half of `trim()`: the result is a suffix of the input, every character removed is at or below U+0020, and the result is empty or starts with a kept character |
| `Constraints.TrimTrailing` | task-manager-springboot/src/main/java/com/example/taskmanagerspringboot/entity/Task.java:18-22 | the trailing half of `trim()`: the result is a prefix, every character removed is trimmable, and the result is empty or ends with a kept character |
| `Constraints.NotBlankIff` | task-manager-springboot/src/main/java/com/example/taskmanagerspringboot/entity/Task.java:18-22 | a present string is not blank exactly when it has a character above U+0020, so an all-whitespace title or description is rejected |
| `Constraints.FullMatchWidth` | task-manager-springboot/src/main/java/com/example/taskmanagerspringboot/entity/Task.java:29 | every full match of a fixed-width pattern has exactly the pattern's width |
| `Entity.FromName` | task-manager-springboot/src/main/java/com/example/taskmanagerspringboot/entity/Task.java:24-26 | converting a priority token succeeds exactly for `high`, `medium` and `low` |
| `Entity.Ordinal` | task-manager-springboot/src/main/java/com/example/taskmanagerspringboot/entity/Task.java:36-38 | each priority's declaration position indexes it in `Priority.values()` |
| `Entity.PrioritiesExact` | task-manager-springboot/src/main/java/com/example/taskmanagerspringboot/entity/Task.java:36-38 | there are exactly three priorities, each listed once, declared in the order high, medium, low |
| `Entity.NameRoundTrip` | task-manager-springboot/src/main/java/com/example/taskmanagerspringboot/entity/Task.java:25-38 | a priority's stored or wire name reads back as that priority, and any token that reads back is the name of its priority |
| `Entity.DueDatePatternIff` | task-manager-springboot/src/main/java/com/example/taskmanagerspringboot/entity/Task.java:28-30 | the regular expression `\d{4}-\d{2}-\d{2}`, matched in full, accepts exactly the ten-character strings with `-` at positions 4 and 7 and ASCII digits elsewhere |
| `Entity.ValidIff` | task-manager-springboot/src/main/java/com/example/taskmanagerspringboot/entity/Task.java:18-30 | a task passes validation iff its title and description are present and not all whitespace, its priority is present, and its due date is present and date-shaped |
| `Entity.Task.constructor` | task-manager-springboot/src/main/java/com/example/taskmanagerspringboot/entity/Task.java:41 | the no-argument constructor leaves every field null |
| `Entity.Task.WithFields` | task-manager-springboot/src/main/java/com/example/taskmanagerspringboot/entity/Task.java:43-49 | sets title, description, priority, due date and user to the arguments and leaves the id null |
| `Entity.Task.SetId` | task-manager-springboot/src/main/java/com/example/taskmanagerspringboot/entity/Task.java:56-58 | the id becomes the argument; every other field is unchanged |
| `Entity.Task.SetTitle` | task-manager-springboot/src/main/java/com/example/taskmanagerspringboot/entity/Task.java:64-66 | the title becomes the argument; every other field is unchanged |
| `Entity.Task.SetDescription` | task-manager-springboot/src/main/java/com/example/taskmanagerspringboot/entity/Task.java:72-74 | the description becomes the argument; every other field is unchanged |
| `Entity.Task.SetPriority` | task-manager-springboot/src/main/java/com/example/taskmanagerspringboot/entity/Task.java:80-82 | the priority becomes the argument; every other field is unchanged |
| `Entity.Task.SetDueDate` | task-manager-springboot/src/main/java/com/example/taskmanagerspringboot/entity/Task.java:88-90 | the due date becomes the argument; every other field is unchanged |
| `Entity.Task.SetUser` | task-manager-springboot/src/main/java/com/example/taskmanagerspringboot/entity/Task.java:96-98 | the owner becomes the argument; every other field is unchanged |
| `Service.TasksOf` | task-manager-springboot/src/main/java/com/example/taskmanagerspringboot/repository/TaskRepository.java:13 | the selected rows are exactly the stored rows whose owner has the user's key, each unchanged |
| `Service.TaskService.constructor` | task-manager-springboot/src/main/java/com/example/taskmanagerspringboot/service/TaskService.java:18-19 | a service starts over an empty, well-formed table with the given date parser |
| `Service.TaskService.FindAllByUser` | task-manager-springboot/src/main/java/com/example/taskmanagerspringboot/service/TaskService.java:21-23 | returns the repository's selection for the user unchanged and changes nothing |
| `Service.TaskService.FindById` | task-manager-springboot/src/main/java/com/example/taskmanagerspringboot/service/TaskService.java:25-27 | an unknown id gives an empty result rather than a failure; a known id gives a new entity holding exactly the stored row |
| `Service.TaskService.Save` | task-manager-springboot/src/main/java/com/example/taskmanagerspringboot/service/TaskService.java:29-31 | no validation: any owned task is written, under its own id or under a fresh id that is written back into it; only an owner-less task is refused, and it changes nothing; every row stays under its own id with an owner |
| `Service.TaskService.DeleteById` | task-manager-springboot/src/main/java/com/example/taskmanagerspringboot/service/TaskService.java:33-35 | removes exactly that key, and does nothing when it is absent |
| `Service.TaskService.IsValidDate` | task-manager-springboot/src/main/java/com/example/taskmanagerspringboot/service/TaskService.java:37-45 | the answer is the parse's outcome, with a parse failure as `false` rather than an exception; it reads and changes no row |
| `Controller.ListedIffOwned` | task-manager-springboot/src/main/java/com/example/taskmanagerspringboot/controller/TaskController.java:30-34 | with a consistent user repository, the requester's list (selected by user key) holds exactly the rows whose owner's username is the requester's, which are the rows edit and delete accept |
| `Controller.EditAdmittedIff` | task-manager-springboot/src/main/java/com/example/taskmanagerspringboot/controller/TaskController.java:93-96 | the row an edit produces (the stored row with title, description, priority and due date copied from the form) is valid and date-parsable exactly when the form is, whatever the stored row held |
| `Controller.TaskController.constructor` | task-manager-springboot/src/main/java/com/example/taskmanagerspringboot/controller/TaskController.java:22-23 | the controller works over the given service |
| `Controller.TaskController.ListTasks` | task-manager-springboot/src/main/java/com/example/taskmanagerspringboot/controller/TaskController.java:28-37 | an unknown requester is redirected to `/login`; otherwise view `tasks` shows exactly that user's rows; the store is never changed |
| `Controller.TaskController.ShowAddTaskForm` | task-manager-springboot/src/main/java/com/example/taskmanagerspringboot/controller/TaskController.java:39-44 | view `add-task` over a task whose fields are all null; the store is never changed |
| `Controller.TaskController.AddTask` | task-manager-springboot/src/main/java/com/example/taskmanagerspringboot/controller/TaskController.java:46-65 | the checks run in order. Binding or constraint errors re-render `add-task`. A failed date parse re-renders `add-task` with the date error. An unknown requester is redirected to `/login`. Each of these leaves store and form untouched. Otherwise the requester becomes the owner, the bound task is saved once under its bound id (or a fresh one), nothing else changes, and the answer is a redirect to `/tasks`. Stored rows stay admitted |
| `Controller.TaskController.ShowEditTaskForm` | task-manager-springboot/src/main/java/com/example/taskmanagerspringboot/controller/TaskController.java:67-76 | a missing task and another user's task both redirect to `/tasks`; otherwise view `edit-task` shows the stored row; the store is never changed |
| `Controller.TaskController.EditTask` | task-manager-springboot/src/main/java/com/example/taskmanagerspringboot/controller/TaskController.java:78-99 | binding or constraint errors, then a failed date parse, re-render `edit-task` with the store unchanged, whoever owns the task; otherwise the answer is a redirect to `/tasks`; a missing or foreign task leaves the store unchanged; an owned one has exactly its title, description, priority and due date replaced by the form's, with its id, its owner and all other rows unchanged |
| `Controller.TaskController.DeleteTask` | task-manager-springboot/src/main/java/com/example/taskmanagerspringboot/controller/TaskController.java:101-108 | always redirects to `/tasks`; removes row `id` exactly when it exists and its owner's username is the requester's, and otherwise changes nothing |

## Left out

- The order of `findAllByUser`'s list is not modelled. The repository sorts by
  the database's ordering of the stored priority names, so the model returns
  the selected rows as a map from id to row.
- The calendar rules of `isValidDate` belong to `java.time`.
  `TaskService.parsesAsDate` is an uninterpreted parameter, so the model claims
  nothing about which dates parse.
- Spring plumbing is left out:
  - the `priorities` model attribute;
  - the validation message texts;
  - the binding of request parameters into the entity, reduced to the bound
    entity plus a flag for a binding error;
  - dependency injection.
- Authentication is left out:
  - the requester is a username;
  - a null principal is not modelled. It makes `listTasks` throw at once
    (TaskController.java:30). `addTask` and `editTask` dereference it only
    after validation passes. `showEditTaskForm` and `deleteTask` dereference
    it only when the task exists. `showAddTaskForm` never receives one;
  - `UserRepository.java` and `User.java` are not part of this model: users
    are a map from username to a `User` holding the key and the username.
- `TaskRepository.java` has no code of its own. Its lookup, save and delete are
  the map operations of `TaskService`.
- Persistence details are left out: lazy loading of the owner, transactions,
  and the interleaving of concurrent requests (last write wins).
- Service.TaskService.Save: saving with an id that is not in the table writes
  the row under that id. Depending on the Hibernate version, merge would
  instead generate a new id or fail. The identity counter is advanced past
  that id.
- Controller.TaskController.AddTask: inherits that simplification. An add
  whose bound id is not in the table is modelled as a write under that id,
  where Hibernate would generate a new id or fail.
- Service.TaskService.Save: returns the key it wrote, not the persisted entity.
  The handlers ignore the returned entity. A refusal by the `user_id NOT NULL`
  column, which Java raises as an exception, is an empty result here.
- Service.TaskService.IsValidDate: takes a `string`, so a null date is
  excluded. `LocalDate.parse(null, …)` throws a `NullPointerException`, which
  the `catch` of `DateTimeParseException` does not catch. Every call site
  (TaskController.java:52, 84) runs only after `@NotBlank` has passed, so the
  date is never null there.
- Entity.OwnedBy treats a row without an owner as foreign. In Java that case
  would throw, but `TaskService.Valid` rules such rows out.
