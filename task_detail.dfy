/** The task detail panel (components/project/TaskDetailPanel.tsx): who may
    remove an assignment, how fetched assignment rows become the panel's list,
    assign-to-self and unassign against the assignment table, and the edit,
    save and cancel transitions. */
module TaskDetail {
  import opened Types
  import opened Text
  import opened AssignmentStore

  const UnknownUser: string := "Bilinmeyen Kullanıcı"
  const AlreadyAssignedAlert: string := "Bu göreve zaten atanmışsınız."
  const AssignFailedAlert: string := "Görev atanamadı. Lütfen tekrar deneyin."
  const UnassignSelfFailedAlert: string := "Görev ataması kaldırılamadı. Lütfen tekrar deneyin."
  const UnassignUserFailedAlert: string := "Kullanıcı çıkarılamadı. Lütfen tekrar deneyin."
  const SaveFailedAlert: string := "Görev güncellenirken bir hata oluştu."

  /** Whether the signed-in user may remove `assignedUserId` from the task: nobody
      without a role or an id; anyone with a role may remove themself; owners and
      admins may remove anyone. */
  function CanRemoveUser(userRole: Option<Role>, currentUserId: Option<string>, assignedUserId: string): (ok: bool)
    ensures userRole.None? || !Present(currentUserId) ==> !ok
    ensures userRole.Some? && Present(currentUserId) && assignedUserId == currentUserId.value ==> ok
    ensures (userRole == Some(Owner) || userRole == Some(Admin)) && Present(currentUserId) ==> ok
    ensures userRole == Some(Member) ==> (ok <==> Present(currentUserId) && assignedUserId == currentUserId.value)
  {
    if userRole.None? || !Present(currentUserId) then false
    else if assignedUserId == currentUserId.value then true
    else if userRole.value == Owner then true
    else if userRole.value == Admin then true
    else false
  }

  /** One fetched row as the panel shows it. The name falls back to "unknown
      user" when the profile, or its name, is missing or empty, so it is never empty. */
  function FormatAssignment(item: AssignmentResponse): (a: TaskAssignment)
    ensures a.userId == item.assignedTo && a.assignedAt == item.assignedAt && a.assignedBy == item.assignedBy
    ensures a.fullName != ""
    ensures item.profiles.Some? && Present(item.profiles.value.fullName) ==>
      a.fullName == item.profiles.value.fullName.value
    ensures !(item.profiles.Some? && Present(item.profiles.value.fullName)) ==> a.fullName == UnknownUser
    ensures a.avatarUrl == if item.profiles.Some? then item.profiles.value.avatarUrl else None
  {
    var name := if item.profiles.Some? && Present(item.profiles.value.fullName)
                then item.profiles.value.fullName.value else UnknownUser;
    var avatar := if item.profiles.Some? then item.profiles.value.avatarUrl else None;
    TaskAssignment(item.assignedTo, name, avatar, item.assignedAt, item.assignedBy)
  }

  /** The `.map` over fetched rows: same count, same order, one formatted entry per row. */
  function FormatAssignments(items: seq<AssignmentResponse>): (r: seq<TaskAssignment>)
    ensures |r| == |items|
    ensures forall i :: 0 <= i < |items| ==> r[i] == FormatAssignment(items[i])
  {
    if |items| == 0 then [] else [FormatAssignment(items[0])] + FormatAssignments(items[1..])
  }

  /** `assignments.some(a => a.user_id === userId)`. */
  predicate HasUser(assignments: seq<TaskAssignment>, userId: string) {
    exists i :: 0 <= i < |assignments| && assignments[i].userId == userId
  }

  /** The panel's list after a successful fetch names exactly the users that
      hold a row for the task in the table. */
  lemma LoadedUsersAreTableUsers(rows: seq<AssignmentRow>, taskId: string,
                                 profiles: map<string, ProfileRef>, userId: string)
    ensures HasUser(FormatAssignments(Embed(ForTask(rows, taskId), profiles)), userId) <==> HasPair(rows, taskId, userId)
  {
    var sel := ForTask(rows, taskId);
    if HasPair(rows, taskId, userId) {
      TableUserIsLoaded(rows, taskId, profiles, userId);
    }
    if HasUser(FormatAssignments(Embed(sel, profiles)), userId) {
      LoadedUserIsInTable(rows, taskId, profiles, userId);
    }
  }

  lemma TableUserIsLoaded(rows: seq<AssignmentRow>, taskId: string, profiles: map<string, ProfileRef>, userId: string)
    requires HasPair(rows, taskId, userId)
    ensures HasUser(FormatAssignments(Embed(ForTask(rows, taskId), profiles)), userId)
  {
    var sel := ForTask(rows, taskId);
    var emb := Embed(sel, profiles);
    var list := FormatAssignments(emb);
    var k :| 0 <= k < |rows| && Matches(rows[k], taskId, userId);
    assert rows[k] in sel;
    var i :| 0 <= i < |sel| && sel[i] == rows[k];
    assert emb[i].assignedTo == userId;
    assert list[i] == FormatAssignment(emb[i]);
  }

  lemma LoadedUserIsInTable(rows: seq<AssignmentRow>, taskId: string, profiles: map<string, ProfileRef>, userId: string)
    requires HasUser(FormatAssignments(Embed(ForTask(rows, taskId), profiles)), userId)
    ensures HasPair(rows, taskId, userId)
  {
    var sel := ForTask(rows, taskId);
    var emb := Embed(sel, profiles);
    var list := FormatAssignments(emb);
    var i :| 0 <= i < |list| && list[i].userId == userId;
    assert list[i] == FormatAssignment(emb[i]);
    assert sel[i].assignedTo == userId;
    assert sel[i] in rows;
    var k :| 0 <= k < |rows| && rows[k] == sel[i];
    assert Matches(rows[k], taskId, userId);
  }

  /** The "assign to me" button's condition: a signed-in user who is not on the list. */
  predicate OffersAssignToSelf(currentUserId: Option<string>, assignments: seq<TaskAssignment>) {
    Present(currentUserId) && !HasUser(assignments, currentUserId.value)
  }

  /** Once the list is loaded from the table, "assign to me" is offered to a
      signed-in user exactly when the table holds no row of theirs for the task. */
  lemma AssignOfferFollowsTable(rows: seq<AssignmentRow>, taskId: string,
                                profiles: map<string, ProfileRef>, me: string)
    requires me != ""
    ensures OffersAssignToSelf(Some(me), FormatAssignments(Embed(ForTask(rows, taskId), profiles)))
            <==> !HasPair(rows, taskId, me)
  {
    LoadedUsersAreTableUsers(rows, taskId, profiles, me);
  }

  /** The label of a status; an unrecognised value reads "unknown". */
  function StatusName(status: string): (name: string)
    ensures name == "Bilinmeyen" <==> status !in {"todo", "in_progress", "done"}
    ensures status == "todo" <==> name == "Bekliyor"
    ensures status == "in_progress" <==> name == "Yapım Aşamasında"
    ensures status == "done" <==> name == "Tamamlandı"
  {
    if status == "todo" then "Bekliyor"
    else if status == "in_progress" then "Yapım Aşamasında"
    else if status == "done" then "Tamamlandı"
    else "Bilinmeyen"
  }

  /** The labels of the status select in edit mode. */
  function StatusOptionLabel(s: Status): string {
    match s
    case Todo => "Bekliyor"
    case InProgress => "Yapım Aşamasında"
    case Done => "Tamamlandı"
  }

  /** The badge names a status the way the edit select labels it, and distinct
      statuses get distinct names. */
  lemma StatusNamesMatchOptions(s: Status, t: Status)
    ensures StatusName(StatusValue(s)) == StatusOptionLabel(s)
    ensures StatusName(StatusValue(s)) == StatusName(StatusValue(t)) ==> s == t
  {
  }

  /** The values the edit form starts from, and that cancel restores: the task's
      title, its description or "" when it has none, and its status. */
  datatype EditFields = EditFields(title: string, description: string, status: Status)

  function FieldsOf(t: Task): (f: EditFields)
    ensures f.title == t.title && f.status == t.status
    ensures t.description.Some? ==> f.description == t.description.value
    ensures t.description.None? ==> f.description == ""
  {
    EditFields(t.title, if t.description.Some? then t.description.value else "", t.status)
  }

  /** The `updates` object sent by save. */
  datatype TaskUpdate = TaskUpdate(title: string, description: string, status: Status, updatedAt: string)

  /** What save writes: nothing without a task or edit permission; otherwise the
      edited title and description with surrounding white space removed, and the
      edited status. */
  function SaveRequest(task: Option<Task>, canEdit: bool, fields: EditFields, now: string): (u: Option<TaskUpdate>)
    ensures u.Some? <==> task.Some? && canEdit
    ensures u.Some? ==> u.value.status == fields.status && u.value.updatedAt == now
    ensures u.Some? ==> u.value.title == Trim(fields.title) && u.value.description == Trim(fields.description)
    ensures u.Some? && !Blank(fields.title) ==> u.value.title != ""
  {
    if task.None? || !canEdit then None
    else Some(TaskUpdate(Trim(fields.title), Trim(fields.description), fields.status, now))
  }

  /** A saved title carries no surrounding white space, and saving what was
      saved writes the same text again. */
  lemma SavedTextIsTrimmed(task: Option<Task>, canEdit: bool, fields: EditFields, now: string)
    requires SaveRequest(task, canEdit, fields, now).Some?
    ensures var u := SaveRequest(task, canEdit, fields, now).value;
      (u.title == [] || (!IsJsSpace(u.title[0]) && !IsJsSpace(u.title[|u.title| - 1]))) &&
      SaveRequest(task, canEdit, EditFields(u.title, u.description, u.status), now) == Some(u)
  {
    TrimIdempotent(fields.title);
    TrimIdempotent(fields.description);
  }

  class TaskDetailPanel {
    const canEdit: bool
    const currentUserId: Option<string>
    const userRole: Option<Role>
    var task: Option<Task>
    var isEditing: bool
    var fields: EditFields
    var isSaving: bool
    var assignments: seq<TaskAssignment>
    var isAssigning: bool

    constructor (canEdit: bool, currentUserId: Option<string>, userRole: Option<Role>)
      ensures this.canEdit == canEdit && this.currentUserId == currentUserId && this.userRole == userRole
      ensures task == None && !isEditing && !isSaving && !isAssigning && assignments == []
      ensures fields == EditFields("", "", Todo)
    {
      this.canEdit := canEdit;
      this.currentUserId := currentUserId;
      this.userRole := userRole;
      task := None;
      isEditing := false;
      fields := EditFields("", "", Todo);
      isSaving := false;
      assignments := [];
      isAssigning := false;
    }

    /** `OffersAssignToSelf` read on this panel's own user and list. */
    function ShowAssignToSelf(): bool
      reads this
    {
      OffersAssignToSelf(currentUserId, assignments)
    }

    /** A new task arrives: the edit form is reset from it. */
    method ShowTask(t: Task)
      modifies this
      ensures task == Some(t) && fields == FieldsOf(t)
      ensures isEditing == old(isEditing) && isSaving == old(isSaving)
      ensures assignments == old(assignments) && isAssigning == old(isAssigning)
    {
      task := Some(t);
      fields := FieldsOf(t);
    }

    /** "Düzenle": offered only to editors not already editing. */
    method StartEditing()
      requires canEdit && !isEditing
      modifies this`isEditing
      ensures isEditing
    {
      isEditing := true;
    }

    /** Typing into the title, description and status inputs of the edit form. */
    method Edit(title: string, description: string, status: Status)
      requires isEditing
      modifies this`fields
      ensures fields == EditFields(title, description, status)
    {
      fields := EditFields(title, description, status);
    }

    /** Save: the button exists only in edit mode and is disabled while saving or
        while the title is blank. Without a task or permission nothing happens.
        Otherwise the trimmed fields are written, so the stored title is never
        empty; the parent is told and edit mode ends only when the store accepts;
        `isSaving` is false again on every path through the write. */
    method Save(now: string, storeFails: bool) returns (sent: Option<TaskUpdate>, notified: bool, alert: Option<string>)
      requires isEditing && !isSaving && !Blank(fields.title)
      modifies this`isSaving, this`isEditing
      ensures sent == SaveRequest(task, canEdit, fields, now)
      ensures sent.Some? ==> sent.value.title != ""
      ensures sent.None? ==> !notified && alert == None && isEditing && !isSaving
      ensures sent.Some? && storeFails ==> !notified && alert == Some(SaveFailedAlert) && isEditing && !isSaving
      ensures sent.Some? && !storeFails ==> notified && alert == None && !isEditing && !isSaving
    {
      notified, alert := false, None;
      sent := SaveRequest(task, canEdit, fields, now);
      if task.Some? && canEdit {
        notified, alert := WriteUpdate(storeFails);
      }
    }

    /** The write of a save: `isSaving` is set around it; a failure raises the
        save alert, success tells the parent and ends edit mode. */
    method WriteUpdate(storeFails: bool) returns (notified: bool, alert: Option<string>)
      modifies this`isSaving, this`isEditing
      ensures notified == !storeFails && !isSaving
      ensures alert == (if storeFails then Some(SaveFailedAlert) else None)
      ensures isEditing == (if storeFails then old(isEditing) else false)
    {
      isSaving := true;
      notified, alert := false, None;
      if storeFails {
        alert := Some(SaveFailedAlert);
      } else {
        notified := true;
        isEditing := false;
      }
      isSaving := false;
    }

    /** Cancel (disabled while saving): the form is restored from the task and
        edit mode ends. */
    method CancelEdit()
      requires !isSaving
      modifies this`fields, this`isEditing
      ensures task.Some? ==> fields == FieldsOf(task.value)
      ensures task.None? ==> fields == old(fields)
      ensures !isEditing
    {
      if task.Some? {
        fields := FieldsOf(task.value);
      }
      isEditing := false;
    }

    /** Reload the task's assignments. On success the list becomes the formatted
        rows; on failure the list is kept and the caller receives []. */
    method LoadTaskAssignments(taskId: string, table: AssignmentTable, profiles: map<string, ProfileRef>,
                               fetchFails: bool) returns (list: seq<TaskAssignment>)
      modifies this`assignments
      ensures fetchFails ==> list == [] && assignments == old(assignments)
      ensures !fetchFails ==> list == FormatAssignments(table.Select(taskId, profiles)) && assignments == list
    {
      if fetchFails {
        list := [];
      } else {
        list := FormatAssignments(table.Select(taskId, profiles));
        assignments := list;
      }
    }

    /** "Bana Ata": insert (task, me, by me). A duplicate reports "already assigned"
        and stores nothing; on success the list is reloaded and the parent is
        handed the reloaded list, which is [] when the reload fails. */
    method AssignToSelf(table: AssignmentTable, profiles: map<string, ProfileRef>, now: string,
                        insertFails: bool, reloadFails: bool)
      returns (alert: Option<string>, notified: Option<seq<TaskAssignment>>)
      requires table.Valid()
      modifies this`assignments, this`isAssigning, table
      ensures table.Valid()
      ensures task.None? || !Present(currentUserId) ==>
        table.rows == old(table.rows) && alert == None && notified == None &&
        isAssigning == old(isAssigning) && assignments == old(assignments)
      ensures task.Some? && Present(currentUserId) ==> !isAssigning
      ensures task.Some? && Present(currentUserId) && insertFails ==>
        table.rows == old(table.rows) && alert == Some(AssignFailedAlert) && notified == None &&
        assignments == old(assignments)
      ensures task.Some? && Present(currentUserId) && !insertFails &&
              HasPair(old(table.rows), task.value.id, currentUserId.value) ==>
        table.rows == old(table.rows) && alert == Some(AlreadyAssignedAlert) && notified == None &&
        assignments == old(assignments)
      ensures task.Some? && Present(currentUserId) && !insertFails &&
              !HasPair(old(table.rows), task.value.id, currentUserId.value) ==>
        table.rows == old(table.rows) + [AssignmentRow(task.value.id, currentUserId.value, currentUserId.value, now)] &&
        alert == None
      ensures task.Some? && Present(currentUserId) && !insertFails &&
              !HasPair(old(table.rows), task.value.id, currentUserId.value) && reloadFails ==>
        notified == Some([]) && assignments == old(assignments)
      ensures task.Some? && Present(currentUserId) && !insertFails &&
              !HasPair(old(table.rows), task.value.id, currentUserId.value) && !reloadFails ==>
        assignments == FormatAssignments(table.Select(task.value.id, profiles)) &&
        notified == Some(assignments) && !ShowAssignToSelf()
    {
      alert, notified := None, None;
      if task.None? || !Present(currentUserId) {
        return;
      }
      isAssigning := true;
      alert, notified := InsertSelf(task.value.id, currentUserId.value, table, profiles, now, insertFails, reloadFails);
      isAssigning := false;
    }

    /** The body of the assign-to-self `try`: the insert, then on success the
        reload; a uniqueness violation and any other failure give their alerts
        and leave the list alone. */
    method InsertSelf(taskId: string, me: string, table: AssignmentTable, profiles: map<string, ProfileRef>,
                      now: string, insertFails: bool, reloadFails: bool)
      returns (alert: Option<string>, notified: Option<seq<TaskAssignment>>)
      requires table.Valid()
      modifies this`assignments, table
      ensures table.Valid()
      ensures insertFails ==>
        table.rows == old(table.rows) && alert == Some(AssignFailedAlert) && notified == None &&
        assignments == old(assignments)
      ensures !insertFails && HasPair(old(table.rows), taskId, me) ==>
        table.rows == old(table.rows) && alert == Some(AlreadyAssignedAlert) && notified == None &&
        assignments == old(assignments)
      ensures !insertFails && !HasPair(old(table.rows), taskId, me) ==>
        table.rows == old(table.rows) + [AssignmentRow(taskId, me, me, now)] && alert == None
      ensures !insertFails && !HasPair(old(table.rows), taskId, me) && reloadFails ==>
        notified == Some([]) && assignments == old(assignments)
      ensures !insertFails && !HasPair(old(table.rows), taskId, me) && !reloadFails ==>
        assignments == FormatAssignments(table.Select(taskId, profiles)) &&
        notified == Some(assignments) && HasUser(assignments, me)
    {
      alert, notified := None, None;
      if insertFails {
        alert := Some(AssignFailedAlert);
        return;
      }
      var code := table.Insert(AssignmentRow(taskId, me, me, now));
      if code == Some(UniqueViolationCode) {
        alert := Some(AlreadyAssignedAlert);
      } else {
        assert HasPair(table.rows, taskId, me) by {
          assert Matches(table.rows[|table.rows| - 1], taskId, me);
        }
        var list := LoadTaskAssignments(taskId, table, profiles, reloadFails);
        LoadedUsersAreTableUsers(table.rows, taskId, profiles, me);
        notified := Some(list);
      }
    }

    /** Delete the (task, userId) rows and reload; rows of other users or other
        tasks stay, the parent is handed the reloaded list ([] when the reload
        fails), and after a successful reload `userId` is off the list. */
    method RemoveAssignment(userId: string, failAlert: string, table: AssignmentTable,
                            profiles: map<string, ProfileRef>, deleteFails: bool, reloadFails: bool)
      returns (alert: Option<string>, notified: Option<seq<TaskAssignment>>)
      requires table.Valid()
      modifies this`assignments, this`isAssigning, table
      ensures table.Valid()
      ensures task.None? || !Present(currentUserId) ==>
        table.rows == old(table.rows) && alert == None && notified == None &&
        isAssigning == old(isAssigning) && assignments == old(assignments)
      ensures task.Some? && Present(currentUserId) ==> !isAssigning
      ensures task.Some? && Present(currentUserId) && deleteFails ==>
        table.rows == old(table.rows) && alert == Some(failAlert) && notified == None &&
        assignments == old(assignments)
      ensures task.Some? && Present(currentUserId) && !deleteFails ==>
        table.rows == Without(old(table.rows), task.value.id, userId) && alert == None
      ensures task.Some? && Present(currentUserId) && !deleteFails && reloadFails ==>
        notified == Some([]) && assignments == old(assignments)
      ensures task.Some? && Present(currentUserId) && !deleteFails && !reloadFails ==>
        assignments == FormatAssignments(table.Select(task.value.id, profiles)) &&
        notified == Some(assignments) && !HasUser(assignments, userId)
    {
      alert, notified := None, None;
      if task.None? || !Present(currentUserId) {
        return;
      }
      var t := task.value;
      isAssigning := true;
      if deleteFails {
        alert := Some(failAlert);
      } else {
        table.Delete(t.id, userId);
        var list := LoadTaskAssignments(t.id, table, profiles, reloadFails);
        LoadedUsersAreTableUsers(table.rows, t.id, profiles, userId);
        notified := Some(list);
      }
      isAssigning := false;
    }

    /** "Çık": the signed-in user leaves the task; after a successful reload
        "assign to me" is offered again. */
    method UnassignSelf(table: AssignmentTable, profiles: map<string, ProfileRef>, deleteFails: bool, reloadFails: bool)
      returns (alert: Option<string>, notified: Option<seq<TaskAssignment>>)
      requires table.Valid()
      modifies this`assignments, this`isAssigning, table
      ensures table.Valid()
      ensures task.None? || !Present(currentUserId) ==>
        table.rows == old(table.rows) && alert == None && notified == None &&
        isAssigning == old(isAssigning) && assignments == old(assignments)
      ensures task.Some? && Present(currentUserId) ==> !isAssigning
      ensures task.Some? && Present(currentUserId) && deleteFails ==>
        table.rows == old(table.rows) && alert == Some(UnassignSelfFailedAlert) && notified == None &&
        assignments == old(assignments)
      ensures task.Some? && Present(currentUserId) && !deleteFails ==>
        table.rows == Without(old(table.rows), task.value.id, currentUserId.value) && alert == None
      ensures task.Some? && Present(currentUserId) && !deleteFails && reloadFails ==>
        notified == Some([]) && assignments == old(assignments)
      ensures task.Some? && Present(currentUserId) && !deleteFails && !reloadFails ==>
        assignments == FormatAssignments(table.Select(task.value.id, profiles)) &&
        notified == Some(assignments) && ShowAssignToSelf()
    {
      var me := if currentUserId.Some? then currentUserId.value else "";
      alert, notified := RemoveAssignment(me, UnassignSelfFailedAlert, table, profiles, deleteFails, reloadFails);
    }

    /** "Çıkar": an owner or admin removes another assignee. */
    method UnassignUser(userId: string, table: AssignmentTable, profiles: map<string, ProfileRef>,
                        deleteFails: bool, reloadFails: bool)
      returns (alert: Option<string>, notified: Option<seq<TaskAssignment>>)
      requires table.Valid()
      modifies this`assignments, this`isAssigning, table
      ensures table.Valid()
      ensures task.None? || !Present(currentUserId) ==>
        table.rows == old(table.rows) && alert == None && notified == None &&
        isAssigning == old(isAssigning) && assignments == old(assignments)
      ensures task.Some? && Present(currentUserId) ==> !isAssigning
      ensures task.Some? && Present(currentUserId) && deleteFails ==>
        table.rows == old(table.rows) && alert == Some(UnassignUserFailedAlert) && notified == None &&
        assignments == old(assignments)
      ensures task.Some? && Present(currentUserId) && !deleteFails ==>
        table.rows == Without(old(table.rows), task.value.id, userId) && alert == None
      ensures task.Some? && Present(currentUserId) && !deleteFails && reloadFails ==>
        notified == Some([]) && assignments == old(assignments)
      ensures task.Some? && Present(currentUserId) && !deleteFails && !reloadFails ==>
        assignments == FormatAssignments(table.Select(task.value.id, profiles)) &&
        notified == Some(assignments) && !HasUser(assignments, userId)
    {
      alert, notified := RemoveAssignment(userId, UnassignUserFailedAlert, table, profiles, deleteFails, reloadFails);
    }
  }
}
