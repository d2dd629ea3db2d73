# TaskFlow rules in Dafny

TaskFlow is a task board for organisations. Members hold one of three roles
(owner, admin, member). Tasks move between the statuses todo, in progress and
done. Tasks can be assigned to members, and every user has a profile. This project
models the rules that sit in the board's components. The hosted database is
represented by parameters (the answer of a lookup, an error code) or by a small
table model. The rules modelled are:

- who may change whose role, and which roles the role menu offers (member management);
- who may remove a task assignee, how fetched assignment rows become the detail
  panel's list, and the assign-to-self, unassign, edit, save and cancel
  transitions of the task detail panel;
- who may drag a task card, the live re-check of the assignment against the
  table, the drag and status-change transitions, and which status buttons a card shows;
- the invite dialog: the blank check, the email pattern, and the role choice
  limited to member and admin;
- the settings page: the profile-load branches, the name suggested from an
  email address, profile validation and the record a save writes;
- the top bar: avatar initials, avatar colour, the greeting name.

Files and modules:

- `types.dfy` (`Types`): the records of `types/index.ts`, the answer of a
  single-row lookup, the store's error codes, and JavaScript truthiness of an optional string.
- `text.dfy` (`Text`): the JavaScript string operations the components use.
  These are `trim` with the ECMAScript white-space set, `split` and `split(c)[0]`,
  `.length` in UTF-16 code units, `charCodeAt(0)`, and `toUpperCase` on ASCII letters.
- `assignment_store.dfy` (`AssignmentStore`): the `task_assignments` table.
  Rows are unique on (task, assignee). The insert reports a uniqueness
  violation, the delete is by pair, and the select embeds the assignee's profile.
- `member_management.dfy`, `task_detail.dfy`, `task_card.dfy`,
  `invite_member.dfy`, `settings.dfy` and `navbar.dfy`: one module per component.
  Each component whose state changes step by step is a class. Its fields are the
  component's state variables, and its methods are the event handlers.

## Model

| member | source | states |
|---|---|---|
| Text.TrimStartShape | app/settings/page.tsx:250 | Trimming the start keeps a suffix of the input. What was removed is white space, and the result is empty or starts with a non-space. |
| Text.TrimEndShape | app/settings/page.tsx:250 | Trimming the end keeps a prefix of the input. What was removed is white space, and the result is empty or ends with a non-space. |
| Text.Trim | app/settings/page.tsx:250 | `trim()` is empty, or starts and ends with a non-space character. |
| Text.TrimIsSlice | app/settings/page.tsx:268-270 | The trimmed string is a contiguous slice of the input, with only white space cut off on either side. |
| Text.BlankIffAllSpace | components/organization/InviteMemberModal.tsx:32 | `!s.trim()` holds exactly when every character of `s` is white space. |
| Text.TrimIdempotent | components/project/TaskDetailPanel.tsx:139-140 | Trimming twice gives what trimming once gives. |
| Text.SplitJoin | components/Navbar.tsx:45 | Joining the pieces of `split(sep)` with `sep` gives back the input. |
| Text.SplitPiecesOmitSeparator | components/Navbar.tsx:45 | No piece of `split(sep)` contains the separator. |
| Text.BeforeFirst | app/settings/page.tsx:98 | `split("@")[0]` is the prefix before the first "@". It contains no "@", and it is followed by "@" unless it is the whole string. |
| Text.Utf16Length | app/settings/page.tsx:255 | `.length` lies between the number of characters and twice that. It equals the number of characters when all of them are in the Basic Multilingual Plane. |
| Text.FirstCodeUnit | components/Navbar.tsx:66 | `charCodeAt(0)` is the character itself inside the BMP and a high surrogate (0xD800–0xDBFF) outside it. |
| Text.UpperAscii | components/Navbar.tsx:48 | Lower-case ASCII letters become their upper-case forms, every other character is kept, and no lower-case ASCII letter remains. |
| MemberManagement.CanUpdateRole | components/dashboard/MemberManagementModal.tsx:35-50 | False unless the actor is owner or admin. False on the user's own row. An admin can never edit an admin or an owner. An owner can edit everyone else, and an admin can edit everyone else who is neither admin nor owner. |
| MemberManagement.WithoutRole | components/dashboard/MemberManagementModal.tsx:75 | `filter` keeps exactly the options whose value differs from the role. A single option is kept or dropped on its own. |
| MemberManagement.WithoutRoleKeepsOrder | components/dashboard/MemberManagementModal.tsx:75 | Filtering a concatenation filters each part and keeps them in order, so the kept options stay in their pushed order. |
| MemberManagement.AvailableRoles | components/dashboard/MemberManagementModal.tsx:53-76 | The menu never offers owner or the member's current role, and only offers the member and admin entries. It is empty for an owner's own row and for actors other than owner and admin. It is non-empty on someone else's row exactly when `canUpdateRole` holds. |
| MemberManagement.ExactOffers | components/dashboard/MemberManagementModal.tsx:53-76 | Every menu on someone else's row, exactly and in order. An admin offers admin to a plain member, and member to any role other than member, admin and owner. An owner offers member to an admin, admin to a member, and member then admin to any other role, another owner included. |
| MemberManagement.RoleName | components/dashboard/MemberManagementModal.tsx:78-87 | "Sahip" exactly for owner, "Yönetici" exactly for admin, "Üye" for everything else. |
| MemberManagement.OptionLabelsMatchRoleNames | components/dashboard/MemberManagementModal.tsx:53-87 | Every offered option carries the label the role badge uses for that role. |
| MemberManagement.MemberManagementModal.constructor | components/dashboard/MemberManagementModal.tsx:32 | The dialog starts with no role menu open. |
| MemberManagement.MemberManagementModal.ToggleMenu | components/dashboard/MemberManagementModal.tsx:173-181 | The role-menu button (only on editable rows, and disabled while that member updates) opens the member's menu, or closes it when it is open. |
| MemberManagement.MemberManagementModal.ChooseRole | components/dashboard/MemberManagementModal.tsx:196-205 | Choosing an entry requests that role for that member and closes the menu. The request is member or admin, never owner, and never the member's current role. |
| AssignmentStore.Without | components/project/TaskDetailPanel.tsx:218-222 | The delete keeps exactly the rows not matching (task, user). Afterwards no row matches, and uniqueness of pairs is preserved. |
| AssignmentStore.WithoutIdempotent | components/project/TaskDetailPanel.tsx:247-251 | Deleting the same pair twice leaves what deleting it once leaves. |
| AssignmentStore.ForTask | components/project/TaskDetailPanel.tsx:111 | `eq("task_id", …)` keeps exactly the rows of that task. |
| AssignmentStore.Embed | components/project/TaskDetailPanel.tsx:98-111 | The select returns one response per row, in order, with the row's columns and the assignee's profile when one exists. |
| AssignmentStore.AssignmentTable.Insert | components/project/TaskDetailPanel.tsx:181-189 | An existing (task, assignee) pair is refused with code 23505 and the table is unchanged. Otherwise the row is appended. Uniqueness of pairs is kept. |
| AssignmentStore.AssignmentTable.Delete | components/project/TaskDetailPanel.tsx:218-222 | The table becomes `Without` of the old table, and uniqueness is kept. |
| TaskDetail.CanRemoveUser | components/project/TaskDetailPanel.tsx:271-286 | Nobody without a role or an id. Anyone with a role may remove themself. Owners and admins may remove anyone. A member may remove exactly themself. |
| TaskDetail.FormatAssignment | components/project/TaskDetailPanel.tsx:116-122 | The entry keeps the row's user, times and assigner. The name is the profile's when non-empty and "Bilinmeyen Kullanıcı" otherwise, so it is never empty. The avatar comes from the profile or is absent. |
| TaskDetail.FormatAssignments | components/project/TaskDetailPanel.tsx:114-124 | One formatted entry per fetched row, same count, same order. |
| TaskDetail.LoadedUsersAreTableUsers | components/project/TaskDetailPanel.tsx:94-130 | After a successful load, a user is on the panel's list exactly when the table holds a row for (task, user). |
| TaskDetail.AssignOfferFollowsTable | components/project/TaskDetailPanel.tsx:524-526 | After a load from the table, "Bana Ata" is offered to a signed-in user exactly when the table holds no row of theirs for the task. |
| TaskDetail.StatusName | components/project/TaskDetailPanel.tsx:289-316 | Each of todo, in_progress and done has its own name, and every other value reads "Bilinmeyen". |
| TaskDetail.StatusNamesMatchOptions | components/project/TaskDetailPanel.tsx:289-316 | The badge names each status the way the edit select labels it, and different statuses get different names. |
| TaskDetail.FieldsOf | components/project/TaskDetailPanel.tsx:47-52 | The edit form starts from the task's title, its description or "" when it has none, and its status. |
| TaskDetail.SaveRequest | components/project/TaskDetailPanel.tsx:133-145 | Something is written exactly when there is a task and edit permission. It holds the trimmed title and description, the edited status and the time. |
| TaskDetail.SavedTextIsTrimmed | components/project/TaskDetailPanel.tsx:139-140 | A saved title has no surrounding white space. Saving the saved fields again writes the same record. |
| TaskDetail.TaskDetailPanel.constructor | components/project/TaskDetailPanel.tsx:26-35 | The panel starts not editing, not saving, not assigning, with an empty list and an empty form whose status is todo. |
| TaskDetail.TaskDetailPanel.ShowTask | components/project/TaskDetailPanel.tsx:47-52 | A new task resets the edit form from it and changes nothing else. |
| TaskDetail.TaskDetailPanel.StartEditing | components/project/TaskDetailPanel.tsx:367-374 | "Düzenle", offered to editors who are not editing, enters edit mode. |
| TaskDetail.TaskDetailPanel.Edit | components/project/TaskDetailPanel.tsx:380-431 | The edit inputs set the form fields. |
| TaskDetail.TaskDetailPanel.Save | components/project/TaskDetailPanel.tsx:133-163 | Writes `SaveRequest`, whose title is never empty because the button needs a non-blank title (line 566). The parent is told and edit mode ends only when the store accepts; a failure raises the save alert. `isSaving` is false after every write. |
| TaskDetail.TaskDetailPanel.WriteUpdate | components/project/TaskDetailPanel.tsx:136-162 | The write sets `isSaving` around itself and ends with it false. A failure raises the save alert and keeps edit mode; success tells the parent and ends edit mode. |
| TaskDetail.TaskDetailPanel.CancelEdit | components/project/TaskDetailPanel.tsx:166-173 | The form is restored from the task when there is one, and edit mode ends. |
| TaskDetail.TaskDetailPanel.LoadTaskAssignments | components/project/TaskDetailPanel.tsx:94-130 | On success the list becomes the formatted select and is returned. On failure the list is kept and [] is returned. |
| TaskDetail.TaskDetailPanel.AssignToSelf | components/project/TaskDetailPanel.tsx:176-210 | Without a task or user nothing happens. A duplicate gives "already assigned", and any other failure gives the generic alert; both keep the table and the list. On success the row (task, me, by me) is appended. The parent then gets the reloaded list, which no longer offers "Bana Ata", or [] when the reload fails, with the list kept. `isAssigning` ends false. |
| TaskDetail.TaskDetailPanel.InsertSelf | components/project/TaskDetailPanel.tsx:180-206 | A failed insert gives the generic alert, and a uniqueness violation gives "already assigned"; in both cases the table and the list are kept. Otherwise (task, me, by me) is appended. The reloaded list, which contains me, is handed on, or [] when the reload fails. |
| TaskDetail.TaskDetailPanel.RemoveAssignment | components/project/TaskDetailPanel.tsx:213-268 | On failure the table and the list are kept and the given alert shows. On success the table loses exactly that pair's rows. The parent gets the reloaded list, which does not contain the user, or [] when the reload fails, with the list kept. `isAssigning` ends false. |
| TaskDetail.TaskDetailPanel.UnassignSelf | components/project/TaskDetailPanel.tsx:213-240 | The signed-in user's rows for the task are deleted, and the parent gets the reloaded list, or [] when the reload fails. After a successful reload "Bana Ata" is offered again. On failure the unassign alert shows and the table and list are kept. `isAssigning` ends false. |
| TaskDetail.TaskDetailPanel.UnassignUser | components/project/TaskDetailPanel.tsx:242-268 | The given user's rows for the task are deleted, and the parent gets the reloaded list without them, or [] when the reload fails. On failure the removal alert shows and the table and list are kept. `isAssigning` ends false. |
| TaskCard.CanDrag | components/project/TaskCard.tsx:54-61 | Editors may drag. Otherwise only a signed-in user listed among the card's assignees may. |
| TaskCard.CheckAssignmentInDB | components/project/TaskCard.tsx:64-86 | Passes without a lookup for editors and callers without an id. Otherwise it passes exactly when the lookup returned a row; "no rows" and other errors fail. |
| TaskCard.LookupIn | components/project/TaskCard.tsx:67-72 | The single-row lookup returns a row exactly when the table holds the pair, and "no rows" otherwise. |
| TaskCard.LiveCheckAgainstTable | components/project/TaskCard.tsx:64-86 | Against the table, the live check passes exactly for editors and for users holding a row for the task, whatever the card's cached list says. |
| TaskCard.CallsStatusUpdate | components/project/TaskCard.tsx:118-121 | A status click reaches `onStatusUpdate` exactly for editors choosing a different status. |
| TaskCard.StatusButtons | components/project/TaskCard.tsx:281-347 | Buttons are shown only to users who may drag, one for each status other than the current one: two distinct buttons, or none. They come in the order todo, in progress, done, leaving out the current status. |
| TaskCard.AssigneeButtonsAreInert | components/project/TaskCard.tsx:118-121 | An assignee who is not an editor sees two status buttons, but none of them calls `onStatusUpdate`. |
| TaskCard.TaskCard.constructor | components/project/TaskCard.tsx:50-51 | A card starts neither dragging nor updating. |
| TaskCard.TaskCard.Draggable | components/project/TaskCard.tsx:215 | `draggable` holds for editors, and otherwise exactly for a signed-in user the card lists as an assignee. |
| TaskCard.TaskCard.ShownStatusButtons | components/project/TaskCard.tsx:281-347 | The card shows one button for each status other than its own when it is draggable, and none otherwise. |
| TaskCard.TaskCard.DragStart | components/project/TaskCard.tsx:89-111 | Cancelled when the cached permission or the live check fails. The board is refreshed only when the live check fails and a refresh callback exists. Otherwise the card is dragging and carries the task id. |
| TaskCard.TaskCard.DragEnd | components/project/TaskCard.tsx:113-115 | Dragging ends. |
| TaskCard.TaskCard.ChangeStatus | components/project/TaskCard.tsx:118-131 | The update is called exactly as `CallsStatusUpdate` says. `isUpdating` is false after a call whether or not it threw, and untouched otherwise. |
| InviteMember.PatternGivesCheck | components/organization/InviteMemberModal.tsx:39-40 | Every string matching `^[^\s@]+@[^\s@]+\.[^\s@]+$` passes the direct check. |
| InviteMember.CheckGivesPattern | components/organization/InviteMemberModal.tsx:39-40 | Every string passing the direct check matches the pattern. |
| InviteMember.EmailPatternIff | components/organization/InviteMemberModal.tsx:39-40 | The pattern and the check accept the same strings. |
| InviteMember.ValidateInvite | components/organization/InviteMemberModal.tsx:32-44 | A blank address gives "E-posta adresi gereklidir.". A trimmed address failing the pattern gives "Geçerli bir e-posta adresi girin.". Otherwise the invite proceeds. |
| InviteMember.AcceptedEmailShape | components/organization/InviteMemberModal.tsx:32-44 | An accepted address is not white space only, and its trimmed form has exactly one "@". |
| InviteMember.InviteMemberModal.constructor | components/organization/InviteMemberModal.tsx:17-20 | The dialog starts with an empty address, role member, not loading, and no error. |
| InviteMember.InviteMemberModal.SelectRole | components/organization/InviteMemberModal.tsx:22-25 | The role can only be set to one of the select's options, member or admin (types/index.ts:70). |
| InviteMember.InviteMemberModal.EditEmail | components/organization/InviteMemberModal.tsx:108-112 | Typing sets the address, and is only possible while not loading. |
| InviteMember.InviteMemberModal.SubmitDisabled | components/organization/InviteMemberModal.tsx:155 | Submit is disabled exactly while loading or while the address is white space only. |
| InviteMember.InviteMemberModal.Submit | components/organization/InviteMemberModal.tsx:27-52 | A validation failure sets its message and clears `loading`. Otherwise `onInvite` gets the untrimmed address and a member-or-admin role. A failure shows its error, or the fallback text, and clears `loading`. A success leaves `loading` set. |
| Settings.CapitalizeFrom | app/settings/page.tsx:101 | The left-to-right scan upper-cases a word character exactly when the character before it is not a word character. |
| Settings.CapitalizeWords | app/settings/page.tsx:101 | `replace(/\b\w/g, …)` upper-cases exactly the characters where `\b\w` matches and keeps the rest. |
| Settings.SpaceSeparators | app/settings/page.tsx:100 | Every ".", "_" and "-" becomes a space, every other character is kept. |
| Settings.SuggestionShape | app/settings/page.tsx:97-102 | The suggestion has the local part's length and no separators. Other characters are kept up to ASCII case, and every word starts with a character that is not a lower-case ASCII letter. |
| Settings.SuggestionIdempotent | app/settings/page.tsx:99-101 | Making a name from a suggested name changes nothing. |
| Settings.SuggestedName | app/settings/page.tsx:97-104 | A non-empty address gives a name as long as the text before its first "@", containing no "@". A missing or empty address gives "". |
| Settings.ValidateProfile | app/settings/page.tsx:250-264 | Each of the three messages appears exactly under its own condition, in order: blank name, trimmed name shorter than 2 UTF-16 units, non-blank phone outside `[+\d\s\-()]`. Otherwise the save proceeds. |
| Settings.BlankPhonePasses | app/settings/page.tsx:261 | A white-space-only phone never fails and validates like an empty one. |
| Settings.OneCharacterNames | app/settings/page.tsx:255 | A one-character name is too short inside the BMP, but passes outside it, since `.length` counts 2. |
| Settings.UpdateFor | app/settings/page.tsx:247-272 | A record is written exactly when there is a user and validation passes. It holds the user id, the trimmed name, phone and position, and the avatar URL as is. |
| Settings.WrittenRecordRevalidates | app/settings/page.tsx:250-272 | A written record passes validation again, and saving it again writes the same record. |
| Settings.Merged | app/settings/page.tsx:290-294 | The kept profile takes every written column and keeps its creation time, or "" when there was no profile. |
| Settings.ReloadedProfileResaves | app/settings/page.tsx:81-87 | A saved profile loaded back into the form passes validation, and saving it again writes the same record. |
| Settings.SettingsPage.constructor | app/settings/page.tsx:11-23 | The page starts loading, with no user or profile and every text field "". |
| Settings.SettingsPage.GetUser | app/settings/page.tsx:45-113 | No user: redirect. A fetch error other than "no rows" blanks the profile and the form. A found row fills the form with "" for missing fields. No row keeps a profile without phone and position, proposes the suggested name, and leaves phone and position as they were. `loading` ends false on every path. |
| Settings.SettingsPage.UpdateProfile | app/settings/page.tsx:241-306 | Messages are cleared. The record written is `UpdateFor`. A validation failure sets its message. A store error sets "Profil güncellenirken hata: " and the error text. Success sets the success message and merges the record into the profile, keeping its creation time or "". `saving` ends false on every path. |
| Settings.SettingsPage.StoreUpdate | app/settings/page.tsx:274-294 | A store error is reported as "Profil güncellenirken hata: " and its text, and the profile is kept. Success shows the confirmation and merges the record into the profile. |
| Navbar.FirstChars | components/Navbar.tsx:46-47 | `map(n => n[0]).join("")` has at most one character per piece. |
| Navbar.WordInitials | components/Navbar.tsx:44-47 | The direct reading: the characters that start a space-separated word. There are no more of them than characters, and none is a space. |
| Navbar.SplitFindsWordInitials | components/Navbar.tsx:44-47 | Splitting on " " and taking each piece's first character yields exactly the word-initial characters. |
| Navbar.FirstTwo | components/Navbar.tsx:49 | `slice(0, 2)` is the prefix of length min(2, length). |
| Navbar.GetInitials | components/Navbar.tsx:42-50 | "?" for a missing or empty name. Otherwise at most two characters, none of them a space. |
| Navbar.InitialsAreWordInitials | components/Navbar.tsx:42-50 | A non-empty name's initials are its first two word-initial characters, upper-cased. |
| Navbar.TwoWordInitials | components/Navbar.tsx:44-49 | When the first two words are non-empty, the initials are their first letters, upper-cased. |
| Navbar.SpacesOnlyNameHasNoInitials | components/Navbar.tsx:43-49 | A name of spaces only passes the "?" guard but yields "" as its initials. |
| Navbar.GetAvatarColor | components/Navbar.tsx:53-68 | The result is always one of the eight colours, and the first one for a missing or empty address. |
| Navbar.SameColorIffSameResidue | components/Navbar.tsx:66-67 | Two addresses get the same colour exactly when their first UTF-16 code units agree modulo 8. |
| Navbar.ColorDependsOnFirstCharacter | components/Navbar.tsx:66 | Addresses with the same first character get the same colour. |
| Navbar.GreetingName | components/Navbar.tsx:81 | The profile name when non-empty. Otherwise the address up to its first "@", which contains no "@", or "" without an address. |
| Navbar.MenuName | components/Navbar.tsx:134 | The profile name when non-empty, otherwise "Kullanıcı". |
| Navbar.AvatarFor | components/Navbar.tsx:95-108 | The picture exactly when the profile has one, with its URL. Otherwise at most two initials on the address's colour (`GetAvatarColor`). The initials are taken from the profile name, or from the address when the name is empty. |

## Left out

- The hosted database client (selects, inserts, deletes, upserts, auth calls) is not modelled as code. Each call's outcome is a parameter: a `Lookup` answer, an error code or text, or a failure flag. The assignment table is a small model with the (task, assignee) uniqueness constraint.
- Assignment polling with `setInterval`, auth-change subscriptions and router redirects are not modelled: they are timers, event wiring and navigation. `GetUser` only reports that a redirect happens.
- `compressImage` is not modelled (floating-point canvas scaling), and neither are avatar upload or storage cleanup (storage I/O with time-based file names).
- JSX rendering, the CSS class pickers, `alert` and `console` calls, and locale date formatting are not modelled. Alerts appear only as the text the model returns.
- Clearing the settings success message after three seconds with `setTimeout` is not modelled.
- The creator-name lookup of the detail panel (`loadCreatorInfo`) is not modelled: it only fetches a display name.
- Exceptions thrown by the client itself are not modelled: a rejected `auth.getUser` call, the generic catch message of `updateProfile`, or a throwing `onInvite`.
- Settings.SettingsPage.UpdateProfile: the store's error text (`error.message || error.details || JSON.stringify(error)`) is a single string parameter.
- TaskDetail.TaskDetailPanel.AssignToSelf: the store's error is taken to be an `Error` instance carrying its code, so a duplicate insert always gives the "already assigned" alert. The source checks `instanceof Error` first, and whether that holds depends on the client library.
- TaskDetail.TaskDetailPanel.AssignToSelf: the insert's `assigned_at` is a column default set by the database; here it is a parameter.
- Navbar.GetInitials: `toUpperCase` is modelled for ASCII letters only. Non-ASCII letters (for example Turkish "ç" or "ş") are kept as they are. A word whose first character lies outside the BMP is represented by that character, whereas the source takes only its high surrogate; this does not change how many characters are kept.
- Settings.CapitalizeWords: upper-casing is ASCII-only, which matches `\w` (an ASCII class), so nothing is lost there.
- TaskDetail.TaskDetailPanel.ShowTask: the effect also reloads the creator name and the assignments. Here those are separate calls (`LoadTaskAssignments`) or left out (creator name).
- TaskCard.TaskCard.DragStart: each event handler is modelled as one atomic step. In the source the handler is `async`. For a signed-in user who is not an editor, `preventDefault` and `dataTransfer.setData` run only after the awaited lookup (components/project/TaskCard.tsx:96-110). By then the browser has finished dispatching `dragstart`, so the drag may not be cancelled and the task id may not be written. The contract states what the handler asks for, not what the browser then does. The other `async` handlers are likewise modelled without interleaving with other events.
- Invitation acceptance and expiry, the single-owner rule and project/organisation grouping are not modelled: no code for them is among these components.
- The create-task, create-project and create-organisation dialogs, the confirmation dialog and the dashboard and landing pages are not modelled: they hold no rules beyond a non-blank guard.
