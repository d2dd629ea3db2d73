/** A task card on the project board (components/project/TaskCard.tsx): the
    drag permission, its live re-check against the assignment table, the
    drag start/end and manual status-change transitions over `isDragging` and
    `isUpdating`, and which status buttons the card shows. */
module TaskCard {
  import opened Types
  import opened AssignmentStore

  /** `task.assignments?.some(a => a.user_id === userId)`. */
  predicate ListedAssignee(task: Task, userId: string) {
    task.assignments.Some? &&
    exists i :: 0 <= i < |task.assignments.value| && task.assignments.value[i].userId == userId
  }

  /** The cached permission: editors, or a signed-in user the card lists as an assignee. */
  function CanDrag(canEdit: bool, currentUserId: Option<string>, task: Task): (ok: bool)
    ensures canEdit ==> ok
    ensures !canEdit ==> (ok <==> Present(currentUserId) && ListedAssignee(task, currentUserId.value))
  {
    canEdit || (Present(currentUserId) && ListedAssignee(task, currentUserId.value))
  }

  /** The live re-check, given the answer of the single-row lookup of
      (task, current user). Editors and callers without a user id pass without a
      lookup; otherwise only a returned row passes: "no rows" and every other
      store error fail. */
  function CheckAssignmentInDB(canEdit: bool, currentUserId: Option<string>, lookup: Lookup<string>): (ok: bool)
    ensures !Present(currentUserId) || canEdit ==> ok
    ensures Present(currentUserId) && !canEdit ==> (ok <==> lookup.Row?)
  {
    if !Present(currentUserId) || canEdit then true
    else
      match lookup
      case Row(_) => true
      case StoreError(_) => false  // "no rows" (not assigned) and a real failure alike
  }

  /** What the `.single()` lookup of (task, user) answers against the table. */
  function LookupIn(rows: seq<AssignmentRow>, taskId: string, userId: string): (l: Lookup<string>)
    ensures l.Row? <==> HasPair(rows, taskId, userId)
    ensures l.StoreError? ==> l.code == NoRowsCode
  {
    if HasPair(rows, taskId, userId) then Row(userId) else StoreError(NoRowsCode)
  }

  /** For a signed-in caller, the live check against the authoritative table
      passes exactly for editors and for users who hold a row for the task,
      whatever the card's cached list says. */
  lemma LiveCheckAgainstTable(canEdit: bool, currentUserId: Option<string>, task: Task, rows: seq<AssignmentRow>)
    requires Present(currentUserId)
    ensures CheckAssignmentInDB(canEdit, currentUserId, LookupIn(rows, task.id, currentUserId.value))
            <==> canEdit || HasPair(rows, task.id, currentUserId.value)
  {
  }

  /** Whether a click on a status button reaches `onStatusUpdate`. */
  function CallsStatusUpdate(canEdit: bool, current: Status, newStatus: Status): (calls: bool)
    ensures calls ==> canEdit && newStatus != current
    ensures canEdit && newStatus != current ==> calls
  {
    canEdit && current != newStatus
  }

  /** The status buttons in the order todo, in progress, done: shown only to users
      who may drag, one for each status other than the current one. */
  function StatusButtons(canDrag: bool, current: Status): (r: seq<Status>)
    ensures forall s :: s in r <==> canDrag && s != current
    ensures |r| == if canDrag then 2 else 0
    ensures forall i, j :: 0 <= i < j < |r| ==> r[i] != r[j]
    ensures canDrag && current == Todo ==> r == [InProgress, Done]
    ensures canDrag && current == InProgress ==> r == [Todo, Done]
    ensures canDrag && current == Done ==> r == [Todo, InProgress]
  {
    if !canDrag then []
    else
      (if current != Todo then [Todo] else []) +
      (if current != InProgress then [InProgress] else []) +
      (if current != Done then [Done] else [])
  }

  /** An assignee who is not an editor sees status buttons, yet none of them
      reaches `onStatusUpdate`: only dragging changes their task's status. */
  lemma AssigneeButtonsAreInert(canEdit: bool, currentUserId: Option<string>, task: Task)
    requires !canEdit && CanDrag(canEdit, currentUserId, task)
    ensures |StatusButtons(true, task.status)| == 2
    ensures forall s :: s in StatusButtons(true, task.status) ==> !CallsStatusUpdate(canEdit, task.status, s)
  {
  }

  class TaskCard {
    const task: Task
    const canEdit: bool
    const currentUserId: Option<string>
    /** Whether the board passed an `onRefresh` callback. */
    const hasRefresh: bool
    var isDragging: bool
    var isUpdating: bool

    constructor (task: Task, canEdit: bool, currentUserId: Option<string>, hasRefresh: bool)
      ensures this.task == task && this.canEdit == canEdit
      ensures this.currentUserId == currentUserId && this.hasRefresh == hasRefresh
      ensures !isDragging && !isUpdating
    {
      this.task := task;
      this.canEdit := canEdit;
      this.currentUserId := currentUserId;
      this.hasRefresh := hasRefresh;
      isDragging := false;
      isUpdating := false;
    }

    /** `draggable` on the card: editors, or a signed-in user the card lists as an assignee. */
    function Draggable(): (d: bool)
      reads this
      ensures canEdit ==> d
      ensures !canEdit ==> (d <==> Present(currentUserId) && ListedAssignee(task, currentUserId.value))
    {
      CanDrag(canEdit, currentUserId, task)
    }

    /** The status buttons this card renders: one per other status when the card
        is draggable, none otherwise. */
    function ShownStatusButtons(): (r: seq<Status>)
      reads this
      ensures forall s :: s in r <==> Draggable() && s != task.status
      ensures |r| == if Draggable() then 2 else 0
    {
      StatusButtons(Draggable(), task.status)
    }

    /** Drag start. Cancelled when the cached permission fails; cancelled and the
        board refreshed when the live check fails; otherwise the card is dragging
        and carries the task id. */
    method DragStart(lookup: Lookup<string>) returns (cancelled: bool, refreshed: bool, payload: Option<string>)
      modifies this`isDragging
      ensures cancelled <==> !(Draggable() && CheckAssignmentInDB(canEdit, currentUserId, lookup))
      ensures refreshed <==> Draggable() && !CheckAssignmentInDB(canEdit, currentUserId, lookup) && hasRefresh
      ensures payload == if cancelled then None else Some(task.id)
      ensures isDragging == if cancelled then old(isDragging) else true
    {
      refreshed, payload := false, None;
      if !CanDrag(canEdit, currentUserId, task) {
        cancelled := true;
        return;
      }
      var assignedInDB := CheckAssignmentInDB(canEdit, currentUserId, lookup);
      if !assignedInDB {
        cancelled := true;
        if hasRefresh {
          refreshed := true;
        }
        return;
      }
      cancelled := false;
      isDragging := true;
      payload := Some(task.id);
    }

    method DragEnd()
      modifies this`isDragging
      ensures !isDragging
    {
      isDragging := false;
    }

    /** A status button click. `onStatusUpdate` is called only for editors and a
        different status; `isUpdating` is cleared afterwards whether or not the call
        threw, and untouched when no call is made. */
    method ChangeStatus(newStatus: Status, updateThrows: bool) returns (called: bool)
      modifies this`isUpdating
      ensures called == CallsStatusUpdate(canEdit, task.status, newStatus)
      ensures isUpdating == if called then false else old(isUpdating)
    {
      if !canEdit || task.status == newStatus {
        called := false;
        return;
      }
      isUpdating := true;
      called := true;
      if updateThrows {
        // the error is only logged
      }
      isUpdating := false;
    }
  }
}
