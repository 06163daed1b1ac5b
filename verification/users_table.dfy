/** The users table: role badges, status badge, avatar, and client-side
    pagination of the user list. */
module UsersTable {
  import opened Wrappers
  import opened JsText
  import opened Tables
  import opened UserTypes
  import UserSchema

  /** `getRoleLabel` */
  function RoleLabel(role: string): string {
    match role
    case "admin" => "Admin"
    case "warden" => "Warden"
    case "lecturer" => "Lecturer"
    case _ => "User"
  }

  /** `getRoleColor`, the role badge's classes. */
  function RoleColor(role: string): string {
    match role
    case "admin" => "bg-red-600 text-white"
    case "warden" => "bg-blue-600 text-white"
    case "lecturer" => "bg-green-600 text-white"
    case _ => "bg-gray-600 text-white"
  }

  /** The avatar's background, chosen by its own chain of comparisons. */
  function AvatarBackground(role: string): string {
    if role == "admin" then "bg-red-600"
    else if role == "warden" then "bg-blue-600"
    else if role == "lecturer" then "bg-green-600"
    else "bg-gray-600"
  }

  /** The avatar and the badge always agree on the role's colour; the label,
      the colour and the schema agree on which roles are known, and the
      three known roles get three different labels and colours. */
  lemma RoleMappingsAgree(role: string)
    ensures RoleColor(role) == AvatarBackground(role) + " text-white"
    ensures RoleLabel(role) == "User" <==> !UserSchema.RoleOk(role)
    ensures RoleColor(role) == "bg-gray-600 text-white" <==> !UserSchema.RoleOk(role)
    ensures UserSchema.RoleRule(role) ==> RoleLabel(role) != "User"
  {
    UserSchema.RoleRuleMeaning(role);
  }

  lemma KnownRolesDistinct(r1: string, r2: string)
    requires UserSchema.RoleOk(r1) && UserSchema.RoleOk(r2) && r1 != r2
    ensures RoleLabel(r1) != RoleLabel(r2)
    ensures RoleColor(r1) != RoleColor(r2)
  {
  }

  /** The status badge text. */
  function StatusBadge(u: UserResponse): (r: string)
    ensures r == "Active" <==> IsActive(u)
    ensures r == "Active" || r == "Inactive"
  {
    if IsActive(u) then "Active" else "Inactive"
  }

  /** The toggle button's tooltip: the action it offers. */
  function ToggleTitle(u: UserResponse): (r: string)
    ensures r == "Deactivate User" <==> IsActive(u)
    ensures r == "Deactivate User" || r == "Activate User"
  {
    if IsActive(u) then "Deactivate User" else "Activate User"
  }

  /** `firstName.charAt(0)` followed by `lastName.charAt(0)`. */
  function AvatarInitials(u: UserResponse): (r: string)
    ensures |r| == (if u.firstName == "" then 0 else 1) + (if u.lastName == "" then 0 else 1)
    ensures u.firstName != "" ==> r[0] == u.firstName[0]
    ensures u.lastName != "" ==> r[|r| - 1] == u.lastName[0]
  {
    FirstChar(u.firstName) + FirstChar(u.lastName)
  }

  // ---------------------------------------------------------------------
  // Pagination (the list is `data = []` when absent).

  datatype PageState = PageState(currentPage: int, pageSize: nat)

  const InitialPage: PageState := PageState(1, 10)

  function Visible(data: seq<UserResponse>, st: PageState): (r: seq<UserResponse>)
    ensures |r| <= st.pageSize
  {
    VisiblePage(data, st.currentPage, st.pageSize)
  }

  function GoTo(data: seq<UserResponse>, st: PageState, target: int): (r: PageState)
    requires st.pageSize > 0
    ensures 1 <= r.currentPage <= Max(1, TotalPages(|data|, st.pageSize))
    ensures r.pageSize == st.pageSize
  {
    st.(currentPage := GoToPage(target, TotalPages(|data|, st.pageSize)))
  }

  /** "from to to of total" under the table. */
  function Label(data: seq<UserResponse>, st: PageState): (r: RangeLabel)
    ensures r.total == |data|
  {
    SliceRangeLabel(|data|, st.currentPage, st.pageSize)
  }

  /** The "next page" button is disabled only on exactly the last page. */
  predicate NextDisabled(data: seq<UserResponse>, st: PageState, loading: bool)
    requires st.pageSize > 0
  {
    st.currentPage == TotalPages(|data|, st.pageSize) || loading
  }

  /** The page-size selector as written: only `pageSize` changes, the
      current page is kept. */
  function ChangePageSizeAsWritten(st: PageState, size: nat): (r: PageState)
    ensures r.pageSize == size && r.currentPage == st.currentPage
  {
    st.(pageSize := size)
  }

  /** 30 users on page 3 of 10 per page; choosing 25 per page keeps page 3
      of what is now 2 pages: the table shows no rows although there are
      users, the footer reads "51 to 30 of 30", and "next page" stays
      enabled because page 3 is not the last page. */
  lemma ResizeAsWrittenCanShowNothing(data: seq<UserResponse>)
    requires |data| == 30
    ensures var st := ChangePageSizeAsWritten(PageState(3, 10), 25);
      && Visible(data, st) == []
      && st.currentPage > TotalPages(|data|, st.pageSize)
      && Label(data, st) == RangeLabel(51, 30, 30)
      && !NextDisabled(data, st, false)
  {
    assert TotalPages(30, 25) == 2;
  }

  /** The page-size change as the other two tables do it: back to page 1. */
  function ChangePageSize(st: PageState, size: nat): (r: PageState)
    ensures r.pageSize == size && r.currentPage == 1
  {
    PageState(1, size)
  }

  /** After a page-size change the table shows the first rows of the list,
      and shows some whenever there are users. */
  lemma ResizeShowsFirstPage(data: seq<UserResponse>, st: PageState, size: nat)
    requires size > 0
    ensures var st' := ChangePageSize(st, size);
      && Visible(data, st') == data[..Min(size, |data|)]
      && (data != [] ==> Visible(data, st') != [])
      && (data != [] ==> Label(data, st') == RangeLabel(1, Min(size, |data|), |data|))
      && 1 <= st'.currentPage <= Max(1, TotalPages(|data|, size))
  {
    if data != [] {
      SliceRangeLabelMatchesPage(data, 1, size);
    }
  }

  /** Every way the page changes keeps it within `[1, max(1, totalPages)]`. */
  ghost predicate PageInBounds(data: seq<UserResponse>, st: PageState) {
    st.pageSize > 0 && 1 <= st.currentPage <= Max(1, TotalPages(|data|, st.pageSize))
  }

  lemma PageStaysInBounds(data: seq<UserResponse>, st: PageState, target: int, size: nat)
    requires PageInBounds(data, st) && size > 0
    ensures PageInBounds(data, GoTo(data, st, target))
    ensures PageInBounds(data, ChangePageSize(st, size))
  {
  }
}
