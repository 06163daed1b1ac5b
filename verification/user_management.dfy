/** The user-management page: the list query's parameters, the confirmation
    flow for status toggles and deletes, and the add/edit dialog's state. */
module UserManagement {
  import opened Wrappers
  import opened UserTypes
  import opened UserConfirm
  import AddUser

  /** The role filter's options; "" is "All users". */
  const RoleFilters: seq<string> := ["", "admin", "warden", "accountant", "kitchen staff"]

  /** `value || undefined`: an empty filter is not sent at all. */
  function OrUndefined(s: string): (r: Option<string>)
    ensures r.None? <==> s == ""
    ensures r.GetOr("") == s
  {
    if s == "" then None else Some(s)
  }

  datatype QueryParams = QueryParams(search: Option<string>, role: Option<string>)

  function QueryParamsOf(searchTerm: string, role: string): (r: QueryParams)
    ensures r.search.GetOr("") == searchTerm && r.role.GetOr("") == role
    ensures r.search.Some? ==> r.search.value != ""
    ensures r.role.Some? ==> r.role.value != ""
  {
    QueryParams(OrUndefined(searchTerm), OrUndefined(role))
  }

  /** Different filter settings give different queries, so no two settings
      share a cached result. */
  lemma QueryParamsInjective(s1: string, r1: string, s2: string, r2: string)
    requires QueryParamsOf(s1, r1) == QueryParamsOf(s2, r2)
    ensures s1 == s2 && r1 == r2
  {
    assert QueryParamsOf(s1, r1).search.GetOr("") == s1;
    assert QueryParamsOf(s2, r2).search.GetOr("") == s2;
  }

  datatype ConfirmRequest = ConfirmRequest(user: UserResponse, action: ConfirmAction)

  datatype Page = Page(
    searchTerm: string,
    isAddModalOpen: bool,
    editingUser: Option<User>,
    role: string,
    confirmModal: Option<ConfirmRequest>)

  const InitialPage: Page := Page("", false, None, RoleFilters[0], None)

  function SetSearchTerm(p: Page, term: string): (r: Page)
    ensures QueryParamsOf(r.searchTerm, r.role) == QueryParams(OrUndefined(term), QueryParamsOf(p.searchTerm, p.role).role)
  {
    p.(searchTerm := term)
  }

  function SetRole(p: Page, role: string): (r: Page)
    ensures QueryParamsOf(r.searchTerm, r.role) == QueryParams(QueryParamsOf(p.searchTerm, p.role).search, OrUndefined(role))
  {
    p.(role := role)
  }

  function HandleToggleStatus(p: Page, u: UserResponse): (r: Page)
    ensures r.confirmModal == Some(ConfirmRequest(u, ToggleStatus))
    ensures r == p.(confirmModal := r.confirmModal)
  {
    p.(confirmModal := Some(ConfirmRequest(u, ToggleStatus)))
  }

  function HandleDeleteUser(p: Page, u: UserResponse): (r: Page)
    ensures r.confirmModal == Some(ConfirmRequest(u, PermanentDelete))
    ensures r == p.(confirmModal := r.confirmModal)
  {
    p.(confirmModal := Some(ConfirmRequest(u, PermanentDelete)))
  }

  /** The request `handleConfirmAction` issues: PATCH `/users/{id}/status`
      or DELETE `/users/{id}`, or nothing when no confirmation is pending. */
  datatype Command = NoCommand | ToggleUserStatus(userId: string) | DeleteUser(userId: string)

  function HandleConfirmAction(p: Page): (r: Command)
    ensures r.NoCommand? <==> p.confirmModal.None?
  {
    match p.confirmModal
    case None => NoCommand
    case Some(req) =>
      if req.action.ToggleStatus? then ToggleUserStatus(req.user.id) else DeleteUser(req.user.id)
  }

  /** Confirming runs exactly the action the table's button asked for, on
      the user whose row it was. */
  lemma ConfirmRunsChosenAction(p: Page, u: UserResponse)
    ensures HandleConfirmAction(HandleToggleStatus(p, u)) == ToggleUserStatus(u.id)
    ensures HandleConfirmAction(HandleDeleteUser(p, u)) == DeleteUser(u.id)
  {
  }

  /** Both mutations' success handlers, and the dialog's close, drop the
      pending confirmation. */
  function CloseConfirm(p: Page): (r: Page)
    ensures r.confirmModal.None?
    ensures r == p.(confirmModal := r.confirmModal)
  {
    p.(confirmModal := None)
  }

  /** The confirmation dialog as the page renders it: open iff a
      confirmation is pending, with its user and action ("toggleStatus"
      when none), busy while either mutation runs. */
  function ConfirmDialog(p: Page, isDeleting: bool, isToggling: bool): (r: Option<Dialog>)
    ensures r.Some? <==> p.confirmModal.Some?
    ensures r.Some? ==> r.value.busy == (isDeleting || isToggling)
  {
    var user := match p.confirmModal case None => None case Some(req) => Some(req.user);
    var action := match p.confirmModal case None => ToggleStatus case Some(req) => req.action;
    Render(p.confirmModal.Some?, user, action, isDeleting || isToggling)
  }

  /** After a confirmed action succeeds the dialog is gone and confirming
      again does nothing: one click, one request. */
  lemma SuccessClosesDialog(p: Page, isDeleting: bool, isToggling: bool)
    ensures ConfirmDialog(CloseConfirm(p), isDeleting, isToggling).None?
    ensures HandleConfirmAction(CloseConfirm(p)).NoCommand?
  {
  }

  /** The dialog opened by a row's toggle button shows that user's toggle. */
  lemma ToggleOpensMatchingDialog(p: Page, u: UserResponse)
    ensures ConfirmDialog(HandleToggleStatus(p, u), false, false) == Render(true, Some(u), ToggleStatus, false)
    ensures ConfirmDialog(HandleDeleteUser(p, u), false, false) == Render(true, Some(u), PermanentDelete, false)
  {
  }

  /** `convertUserResponseToUser`: the record the edit dialog gets. */
  function ConvertUserResponseToUser(u: UserResponse): (r: User)
    ensures r.id == u.id && r.role == u.role
    ensures r.firstName == u.firstName && r.lastName == u.lastName
    ensures r.email == u.email && r.nic == u.nic && r.phone == u.phone
  {
    User(u.id, u.firstName, u.lastName, u.email, u.nic, u.phone, u.role)
  }

  function OpenEditModal(p: Page, u: UserResponse): (r: Page)
    ensures r.isAddModalOpen && r.editingUser == Some(ConvertUserResponseToUser(u))
    ensures r.confirmModal == p.confirmModal && r.searchTerm == p.searchTerm && r.role == p.role
  {
    p.(editingUser := Some(ConvertUserResponseToUser(u)), isAddModalOpen := true)
  }

  /** The "New Entry" button only opens the dialog. */
  function OpenAddModal(p: Page): (r: Page)
    ensures r.isAddModalOpen && r.editingUser == p.editingUser
  {
    p.(isAddModalOpen := true)
  }

  function CloseAddModal(p: Page): (r: Page)
    ensures !r.isAddModalOpen && r.editingUser.None?
    ensures r.confirmModal == p.confirmModal && r.searchTerm == p.searchTerm && r.role == p.role
  {
    p.(isAddModalOpen := false, editingUser := None)
  }

  /** Editing a listed user and saving the untouched form updates that same
      user (PUT `/users/{_id}`) with the values the table showed. */
  lemma EditRowRoundTrip(p: Page, u: UserResponse)
    requires u.id != ""
    ensures var q := OpenEditModal(p, u);
      AddUser.OnSubmit(q.editingUser, AddUser.FormOnOpen(q.editingUser)) ==
        AddUser.Update(u.id, UpdateUserBody(Some(u.firstName), Some(u.lastName), Some(u.email),
                                            Some(u.nic), Some(u.phone), Some(u.role), None, None))
  {
    AddUser.UnchangedEditRoundTrip(ConvertUserResponseToUser(u));
  }

  /** After the dialog closes, "New Entry" always opens it in create mode,
      whatever was edited before. */
  lemma NewEntryAfterCloseCreates(p: Page)
    ensures var q := OpenAddModal(CloseAddModal(p));
      q.isAddModalOpen && !AddUser.IsEditMode(q.editingUser)
      && AddUser.FormOnOpen(q.editingUser) == AddUser.BlankForm
  {
  }

  datatype View = AccessRestricted | ManageUsers

  /** The page shows only the restriction notice without "manage_users". */
  function ViewFor(permissions: set<string>): (r: View)
    ensures r.ManageUsers? <==> "manage_users" in permissions
  {
    if "manage_users" in permissions then ManageUsers else AccessRestricted
  }
}
