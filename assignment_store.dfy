/** The hosted `task_assignments` table, seen from the task panels: rows unique
    on (task, assignee), an insert that reports the uniqueness violation instead of
    storing a second row, a delete that filters by the pair, and the select that
    embeds each assignee's profile. */
module AssignmentStore {
  import opened Types

  datatype AssignmentRow = AssignmentRow(taskId: string, assignedTo: string, assignedBy: string, assignedAt: string)

  /** The name and avatar columns of `profiles` that the select embeds. */
  datatype ProfileRef = ProfileRef(fullName: Option<string>, avatarUrl: Option<string>)

  /** One row of `select(assigned_to, assigned_at, assigned_by, profiles!assigned_to(...))`. */
  datatype AssignmentResponse = AssignmentResponse(
    assignedTo: string,
    assignedAt: string,
    assignedBy: string,
    profiles: Option<ProfileRef>)

  predicate Matches(r: AssignmentRow, taskId: string, userId: string) {
    r.taskId == taskId && r.assignedTo == userId
  }

  predicate HasPair(rows: seq<AssignmentRow>, taskId: string, userId: string) {
    exists i :: 0 <= i < |rows| && Matches(rows[i], taskId, userId)
  }

  /** The uniqueness constraint on (task_id, assigned_to). */
  ghost predicate UniquePairs(rows: seq<AssignmentRow>) {
    forall i, j :: 0 <= i < j < |rows| ==> !Matches(rows[j], rows[i].taskId, rows[i].assignedTo)
  }

  /** `delete().eq("task_id", taskId).eq("assigned_to", userId)`: every row but
      the matching ones, in their order. */
  function Without(rows: seq<AssignmentRow>, taskId: string, userId: string): (r: seq<AssignmentRow>)
    ensures forall x :: x in r <==> x in rows && !Matches(x, taskId, userId)
    ensures !HasPair(r, taskId, userId)
    ensures UniquePairs(rows) ==> UniquePairs(r)
  {
    if |rows| == 0 then []
    else
      var rest := Without(rows[1..], taskId, userId);
      if Matches(rows[0], taskId, userId) then rest
      else
        assert forall x :: x in rest ==> x in rows[1..];
        [rows[0]] + rest
  }

  /** Deleting the same pair a second time changes nothing. */
  lemma {:induction false} WithoutIdempotent(rows: seq<AssignmentRow>, taskId: string, userId: string)
    ensures Without(Without(rows, taskId, userId), taskId, userId) == Without(rows, taskId, userId)
  {
    if |rows| > 0 {
      WithoutIdempotent(rows[1..], taskId, userId);
      if !Matches(rows[0], taskId, userId) {
        var w := Without(rows, taskId, userId);
        assert w[1..] == Without(rows[1..], taskId, userId);
      }
    }
  }

  /** `eq("task_id", taskId)`: the task's rows in table order. */
  function ForTask(rows: seq<AssignmentRow>, taskId: string): (r: seq<AssignmentRow>)
    ensures forall x :: x in r <==> x in rows && x.taskId == taskId
  {
    if |rows| == 0 then []
    else if rows[0].taskId == taskId then [rows[0]] + ForTask(rows[1..], taskId)
    else ForTask(rows[1..], taskId)
  }

  /** Attach each row's assignee profile, when the profiles table has one. */
  function Embed(rows: seq<AssignmentRow>, profiles: map<string, ProfileRef>): (r: seq<AssignmentResponse>)
    ensures |r| == |rows|
    ensures forall i :: 0 <= i < |rows| ==>
      r[i].assignedTo == rows[i].assignedTo && r[i].assignedAt == rows[i].assignedAt &&
      r[i].assignedBy == rows[i].assignedBy &&
      r[i].profiles == (if rows[i].assignedTo in profiles then Some(profiles[rows[i].assignedTo]) else None)
  {
    if |rows| == 0 then []
    else
      var p := if rows[0].assignedTo in profiles then Some(profiles[rows[0].assignedTo]) else None;
      [AssignmentResponse(rows[0].assignedTo, rows[0].assignedAt, rows[0].assignedBy, p)] + Embed(rows[1..], profiles)
  }

  /** The table itself. */
  class AssignmentTable {
    var rows: seq<AssignmentRow>

    ghost predicate Valid()
      reads this
    {
      UniquePairs(rows)
    }

    constructor ()
      ensures Valid() && rows == []
    {
      rows := [];
    }

    /** Insert a row; a second row for the same (task, assignee) is refused with
        the uniqueness-violation code and the table is left as it was. */
    method Insert(row: AssignmentRow) returns (errorCode: Option<string>)
      requires Valid()
      modifies this
      ensures Valid()
      ensures HasPair(old(rows), row.taskId, row.assignedTo) ==>
        errorCode == Some(UniqueViolationCode) && rows == old(rows)
      ensures !HasPair(old(rows), row.taskId, row.assignedTo) ==>
        errorCode == None && rows == old(rows) + [row]
    {
      if HasPair(rows, row.taskId, row.assignedTo) {
        errorCode := Some(UniqueViolationCode);
      } else {
        rows := rows + [row];
        errorCode := None;
      }
    }

    /** Delete the rows of (task, assignee); deleting an absent pair is not an error. */
    method Delete(taskId: string, userId: string)
      requires Valid()
      modifies this
      ensures Valid()
      ensures rows == Without(old(rows), taskId, userId)
    {
      rows := Without(rows, taskId, userId);
    }

    /** The select the panels issue for one task. */
    function Select(taskId: string, profiles: map<string, ProfileRef>): (r: seq<AssignmentResponse>)
      reads this
      ensures |r| == |ForTask(rows, taskId)|
    {
      Embed(ForTask(rows, taskId), profiles)
    }
  }
}
