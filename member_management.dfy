/** The role policy of the member-management dialog
    (components/dashboard/MemberManagementModal.tsx): who may change whose role,
    which target roles are offered, and the per-member role menu. Roles are the
    strings the store holds, so a role other than owner/admin/member is possible. */
module MemberManagement {
  import opened Types

  /** A membership row as the dialog lists it. */
  datatype Member = Member(id: string, userId: string, role: string)

  /** One entry of a role menu: the role written to the store and its label. */
  datatype RoleOption = RoleOption(value: string, caption: string)

  const MemberOption: RoleOption := RoleOption("member", "Üye")
  const AdminOption: RoleOption := RoleOption("admin", "Yönetici")

  /** The listed member is the signed-in user (strict equality: no current user matches nobody). */
  predicate IsSelf(m: Member, currentUserId: Option<string>) {
    currentUserId == Some(m.userId)
  }

  /** Whether the signed-in user, holding `actorRole`, may change the role of `m`. */
  function CanUpdateRole(actorRole: string, currentUserId: Option<string>, m: Member): (ok: bool)
    ensures actorRole != "owner" && actorRole != "admin" ==> !ok
    ensures IsSelf(m, currentUserId) ==> !ok
    ensures actorRole == "admin" && (m.role == "admin" || m.role == "owner") ==> !ok
    ensures actorRole == "owner" && !IsSelf(m, currentUserId) ==> ok
    ensures actorRole == "admin" && m.role != "admin" && m.role != "owner" && !IsSelf(m, currentUserId) ==> ok
  {
    if actorRole != "owner" && actorRole != "admin" then false
    else if actorRole == "admin" && m.role == "admin" then false
    else if actorRole == "admin" && m.role == "owner" then false
    else if currentUserId == Some(m.userId) then false
    else true
  }

  /** `options.filter(o => o.value !== role)`. */
  function WithoutRole(options: seq<RoleOption>, role: string): (r: seq<RoleOption>)
    ensures forall o :: o in r <==> o in options && o.value != role
    ensures |r| <= |options|
    ensures |options| == 1 ==> r == if options[0].value != role then options else []
  {
    if |options| == 0 then []
    else if options[0].value != role then [options[0]] + WithoutRole(options[1..], role)
    else WithoutRole(options[1..], role)
  }

  /** Filtering keeps the order: the kept options of `a + b` are those of `a`
      followed by those of `b`. */
  lemma {:induction false} WithoutRoleKeepsOrder(a: seq<RoleOption>, b: seq<RoleOption>, role: string)
    ensures WithoutRole(a + b, role) == WithoutRole(a, role) + WithoutRole(b, role)
    decreases |a|
  {
    if |a| > 0 {
      WithoutRoleKeepsOrder(a[1..], b, role);
      assert (a + b)[1..] == a[1..] + b;
    } else {
      assert a + b == b;
    }
  }

  /** The options pushed before filtering: an owner offers member and admin to
      anyone but themself; an admin offers member to anyone who is neither admin
      nor owner, and admin to a plain member. */
  function PushedRoles(actorRole: string, currentUserId: Option<string>, m: Member): seq<RoleOption> {
    if actorRole == "owner" then
      (if currentUserId != Some(m.userId) then [MemberOption, AdminOption] else [])
    else if actorRole == "admin" then
      (if m.role != "admin" && m.role != "owner" then [MemberOption] else []) +
      (if m.role == "member" then [AdminOption] else [])
    else []
  }

  /** The target roles offered for `m`. Owner is never offered, nor the role `m`
      already holds; the menu is non-empty exactly when the user may edit `m`
      (the admin branch does not itself exclude the user's own row, but such a row
      is never editable). */
  function AvailableRoles(actorRole: string, currentUserId: Option<string>, m: Member): (r: seq<RoleOption>)
    ensures forall o :: o in r ==> o.value != "owner" && o.value != m.role
    ensures forall o :: o in r ==> o == MemberOption || o == AdminOption
    ensures actorRole == "owner" && IsSelf(m, currentUserId) ==> r == []
    ensures actorRole != "owner" && actorRole != "admin" ==> r == []
    ensures CanUpdateRole(actorRole, currentUserId, m) <==> !IsSelf(m, currentUserId) && r != []
  {
    WithoutRole(PushedRoles(actorRole, currentUserId, m), m.role)
  }

  /** Every menu an owner or admin sees on someone else's row, exactly and in
      order: an admin offers admin to a plain member and member to any other
      non-admin, non-owner role; an owner offers member to an admin, admin to a
      member, and both, member first, to any other role (another owner included). */
  lemma ExactOffers(currentUserId: Option<string>, m: Member)
    ensures m.role == "member" ==> AvailableRoles("admin", currentUserId, m) == [AdminOption]
    ensures m.role != "member" && m.role != "admin" && m.role != "owner" ==>
      AvailableRoles("admin", currentUserId, m) == [MemberOption]
    ensures m.role == "admin" && !IsSelf(m, currentUserId) ==>
      AvailableRoles("owner", currentUserId, m) == [MemberOption]
    ensures m.role == "member" && !IsSelf(m, currentUserId) ==>
      AvailableRoles("owner", currentUserId, m) == [AdminOption]
    ensures m.role != "member" && m.role != "admin" && !IsSelf(m, currentUserId) ==>
      AvailableRoles("owner", currentUserId, m) == [MemberOption, AdminOption]
  {
    if m.role == "member" {
      assert PushedRoles("admin", currentUserId, m) == [MemberOption, AdminOption];
      WithoutRoleKeepsOrder([MemberOption], [AdminOption], m.role);
    } else if m.role != "admin" && m.role != "owner" {
      assert PushedRoles("admin", currentUserId, m) == [MemberOption] + [];
    }
    if !IsSelf(m, currentUserId) {
      assert PushedRoles("owner", currentUserId, m) == [MemberOption] + [AdminOption];
      WithoutRoleKeepsOrder([MemberOption], [AdminOption], m.role);
    }
  }

  /** The label of a role; anything unrecognised reads as a member. */
  function RoleName(role: string): (name: string)
    ensures role == "owner" <==> name == "Sahip"
    ensures role == "admin" <==> name == "Yönetici"
    ensures role != "owner" && role != "admin" <==> name == "Üye"
  {
    if role == "owner" then "Sahip"
    else if role == "admin" then "Yönetici"
    else "Üye"
  }

  /** Every offered option is labelled the way the role badge names that role. */
  lemma OptionLabelsMatchRoleNames(actorRole: string, currentUserId: Option<string>, m: Member)
    ensures forall o :: o in AvailableRoles(actorRole, currentUserId, m) ==> RoleName(o.value) == o.caption
  {
  }

  /** The dialog: its props and the member whose role menu is open. */
  class MemberManagementModal {
    const members: seq<Member>
    const currentUserRole: string
    const currentUserId: Option<string>
    /** The member whose role change is in flight; its menu button is disabled. */
    const updatingMember: Option<string>
    var expandedMember: Option<string>

    constructor (members: seq<Member>, currentUserRole: string, currentUserId: Option<string>,
                 updatingMember: Option<string>)
      ensures this.members == members && this.currentUserRole == currentUserRole
      ensures this.currentUserId == currentUserId && this.updatingMember == updatingMember
      ensures expandedMember == None
    {
      this.members := members;
      this.currentUserRole := currentUserRole;
      this.currentUserId := currentUserId;
      this.updatingMember := updatingMember;
      expandedMember := None;
    }

    /** Click on "Rol Değiştir": the button exists only for editable members and is
        disabled while that member is being updated; it opens the menu, or closes it
        when it is already open. */
    method ToggleMenu(m: Member)
      requires m in members && CanUpdateRole(currentUserRole, currentUserId, m)
      requires updatingMember != Some(m.id)
      modifies this
      ensures expandedMember == if old(expandedMember) == Some(m.id) then None else Some(m.id)
    {
      expandedMember := if expandedMember == Some(m.id) then None else Some(m.id);
    }

    /** Click on an entry of the open menu: asks for the role update and closes the
        menu. The request never names owner and never repeats the member's role. */
    method ChooseRole(m: Member, option: RoleOption) returns (memberId: string, newRole: string)
      requires m in members && CanUpdateRole(currentUserRole, currentUserId, m)
      requires expandedMember == Some(m.id)
      requires option in AvailableRoles(currentUserRole, currentUserId, m)
      modifies this
      ensures memberId == m.id && newRole == option.value
      ensures newRole != "owner" && newRole != m.role
      ensures newRole == "member" || newRole == "admin"
      ensures expandedMember == None
    {
      memberId, newRole := m.id, option.value;
      expandedMember := None;
    }
  }
}
