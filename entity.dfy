/** The task entity: its priority enumeration, the owner it refers to, the row
    a persisted task is, the mutable entity object with its constructors and
    setters, and the field constraints a task must satisfy before it is saved. */
module Entity {
  import opened Wrappers
  import opened Constraints

  /** `Task.Priority`, in declaration order. */
  datatype Priority = High | Medium | Low

  /** `Priority.values()`: every constant, in declaration order. */
  const Priorities: seq<Priority> := [High, Medium, Low]

  /** `Priority.name()`: the token used on the wire and, with
      `EnumType.STRING`, in the database column. */
  function Name(p: Priority): string {
    match p
    case High => "high"
    case Medium => "medium"
    case Low => "low"
  }

  /** `Priority.valueOf`: case-sensitive; any other token is a conversion
      failure, reported here as `None`. */
  function FromName(s: string): (r: Option<Priority>)
    ensures r.Some? <==> s in {"high", "medium", "low"}
  {
    if s == "high" then Some(High)
    else if s == "medium" then Some(Medium)
    else if s == "low" then Some(Low)
    else None
  }

  /** `Priority.ordinal()`: the position in declaration order. */
  function Ordinal(p: Priority): (r: nat)
    ensures r < |Priorities| && Priorities[r] == p
  {
    match p
    case High => 0
    case Medium => 1
    case Low => 2
  }

  /** There are exactly three priorities, each listed once, in the order
      high, medium, low. */
  lemma PrioritiesExact()
    ensures |Priorities| == 3
    ensures forall p: Priority :: p in Priorities
    ensures forall i, j :: 0 <= i < j < |Priorities| ==> Priorities[i] != Priorities[j]
    ensures forall i :: 0 <= i < |Priorities| ==> Ordinal(Priorities[i]) == i
  {
    forall p: Priority ensures p in Priorities {
      assert Priorities[Ordinal(p)] == p;
    }
  }

  /** Reading back a written token gives the same priority, and every token
      that is read back is the name of the priority it yields. */
  lemma NameRoundTrip(p: Priority, s: string)
    ensures FromName(Name(p)) == Some(p)
    ensures FromName(s) == Some(p) ==> Name(p) == s
  {
  }

  /** The user a task belongs to, as far as this model needs it: the entity
      key the task's foreign key refers to, and the login name. */
  datatype User = User(id: int, username: string)

  /** The state of a task: one row of the `tasks` table, or the fields of an
      entity object. Every reference field of the entity may be null. */
  datatype TaskData = TaskData(
    id: Option<int>,
    title: Option<string>,
    description: Option<string>,
    priority: Option<Priority>,
    dueDate: Option<string>,
    user: Option<User>)

  /** The state of `new Task()`: every field null. */
  const Blank := TaskData(None, None, None, None, None, None)

  /** The `@Pattern` regular expression on `dueDate`: `\d{4}-\d{2}-\d{2}`. */
  const DueDatePattern: Pattern :=
    [Piece(Digit, 4), Piece(Literal('-'), 1), Piece(Digit, 2), Piece(Literal('-'), 1), Piece(Digit, 2)]

  /** A reference reading of that pattern, position by position: ten
      characters, dashes at 4 and 7, ASCII digits everywhere else. */
  predicate DateShaped(s: string) {
    && |s| == 10
    && s[4] == '-' && s[7] == '-'
    && forall i :: 0 <= i < 10 && i != 4 && i != 7 ==> IsAsciiDigit(s[i])
  }

  /** The due-date regular expression accepts exactly the date-shaped strings. */
  lemma DueDatePatternIff(s: string)
    ensures FullMatch(DueDatePattern, s) <==> DateShaped(s)
  {
  }

  /** The task passes `@Valid`: every field annotation of `Task` holds. */
  predicate IsValid(t: TaskData) {
    && NotBlank(t.title)                                // @NotBlank title
    && NotBlank(t.description)                          // @NotBlank description
    && t.priority.Some?                                 // @NotNull priority
    && NotBlank(t.dueDate)                              // @NotBlank dueDate
    && MatchesPattern(t.dueDate, DueDatePattern)        // @Pattern dueDate
  }

  /** A valid task has a title and a description that are present and not all
      whitespace, a priority, and a due date shaped like yyyy-MM-dd; and
      conversely. The due date's own `@NotBlank` adds nothing to `@Pattern`
      once the value is present. */
  lemma ValidIff(t: TaskData)
    ensures IsValid(t) <==>
      && t.title.Some? && HasVisibleChar(t.title.value)
      && t.description.Some? && HasVisibleChar(t.description.value)
      && t.priority.Some?
      && t.dueDate.Some? && DateShaped(t.dueDate.value)
  {
    if t.title.Some? { NotBlankIff(t.title.value); }
    if t.description.Some? { NotBlankIff(t.description.value); }
    if t.dueDate.Some? {
      var d := t.dueDate.value;
      NotBlankIff(d);
      DueDatePatternIff(d);
      if DateShaped(d) {
        assert !IsTrimmable(d[0]);
      }
    }
  }

  /** The ownership test of the controller: the task has an owner whose
      username equals the requester's. */
  predicate OwnedBy(t: TaskData, username: string) {
    t.user.Some? && t.user.value.username == username
  }

  /** The JPA entity `Task`: a mutable object whose fields the setters
      overwrite one at a time. Getters are plain field reads. */
  class Task {
    var id: Option<int>
    var title: Option<string>
    var description: Option<string>
    var priority: Option<Priority>
    var dueDate: Option<string>
    var user: Option<User>

    /** The entity's current state as a value. */
    function Data(): TaskData
      reads this
    {
      TaskData(id, title, description, priority, dueDate, user)
    }

    /** `new Task()`: every field null. */
    constructor ()
      ensures Data() == Blank
    {
      id, title, description, priority, dueDate, user := None, None, None, None, None, None;
    }

    /** The five-argument constructor: sets everything but the id, which stays
        null until the store assigns one. */
    constructor WithFields(title: Option<string>, description: Option<string>, priority: Option<Priority>,
                           dueDate: Option<string>, user: Option<User>)
      ensures Data() == TaskData(None, title, description, priority, dueDate, user)
    {
      this.id := None;
      this.title := title;
      this.description := description;
      this.priority := priority;
      this.dueDate := dueDate;
      this.user := user;
    }

    method SetId(id: Option<int>)
      modifies this
      ensures Data() == old(Data()).(id := id)
    {
      this.id := id;
    }

    method SetTitle(title: Option<string>)
      modifies this
      ensures Data() == old(Data()).(title := title)
    {
      this.title := title;
    }

    method SetDescription(description: Option<string>)
      modifies this
      ensures Data() == old(Data()).(description := description)
    {
      this.description := description;
    }

    method SetPriority(priority: Option<Priority>)
      modifies this
      ensures Data() == old(Data()).(priority := priority)
    {
      this.priority := priority;
    }

    method SetDueDate(dueDate: Option<string>)
      modifies this
      ensures Data() == old(Data()).(dueDate := dueDate)
    {
      this.dueDate := dueDate;
    }

    method SetUser(user: Option<User>)
      modifies this
      ensures Data() == old(Data()).(user := user)
    {
      this.user := user;
    }
  }
}
