/** The records of types/index.ts that the components work on, and the shape of
    a single-row lookup answered by the hosted store. */
module Types {

  datatype Option<T> = None | Some(value: T)

  /** `Membership.role`. */
  datatype Role = Owner | Admin | Member

  /** `Task.status`. */
  datatype Status = Todo | InProgress | Done

  function StatusValue(s: Status): (v: string)
    ensures v in {"todo", "in_progress", "done"}
  {
    match s
    case Todo => "todo"
    case InProgress => "in_progress"
    case Done => "done"
  }

  /** A task as the board and the detail panel hold it, with the assignments
      the project page attaches to it. */
  datatype Task = Task(
    id: string,
    projectId: string,
    title: string,
    description: Option<string>,
    status: Status,
    createdBy: string,
    createdAt: string,
    assignments: Option<seq<TaskAssignment>>)

  /** One assignee of a task, already joined with the assignee's profile. */
  datatype TaskAssignment = TaskAssignment(
    userId: string,
    fullName: string,
    avatarUrl: Option<string>,
    assignedAt: string,
    assignedBy: string)

  /** A row of the `profiles` table. */
  datatype Profile = Profile(
    id: string,
    fullName: string,
    avatarUrl: Option<string>,
    position: Option<string>,
    phone: Option<string>,
    createdAt: string)

  /** The answer of a `.single()` lookup: a row, or an error code from the store. */
  datatype Lookup<T> = Row(value: T) | StoreError(code: string)

  /** The store's code for "the single-row lookup matched no rows". */
  const NoRowsCode: string := "PGRST116"

  /** The database's code for a violated uniqueness constraint. */
  const UniqueViolationCode: string := "23505"

  /** JavaScript truthiness of an optional string: absent and "" are both false. */
  predicate Present(s: Option<string>) {
    s.Some? && s.value != ""
  }
}
