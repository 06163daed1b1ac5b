/** The students table: server-side pagination (the server sends one page
    and the total), the row action menu, and the delete confirmation. */
module StudentTable {
  import opened Wrappers
  import opened Tables
  import opened StudentDetails

  const PageSizeOptions: seq<nat> := [5, 10, 25, 50, 100]

  /** The table's state. `page`, `pageSize`, `selectedStudent` and
      `editOpen` belong to the page that hosts the table, which hands the
      table their setters. */
  datatype Table = Table(
    page: int,
    pageSize: nat,
    detailsOpen: bool,
    detailsStudent: Option<StudentResponse>,
    deleteOpen: bool,
    studentToDelete: Option<StudentResponse>,
    openDropdownId: Option<string>,
    selectedStudent: Option<StudentResponse>,
    editOpen: bool)

  /** `data?.total || 0` */
  function TotalStudents(total: Option<nat>): (r: nat)
    ensures total.Some? ==> r == total.value
    ensures total.None? ==> r == 0
  {
    total.GetOr(0)
  }

  /** "startIndex to endIndex of total", computed from the page number alone:
      `(page - 1) * pageSize + 1`, `Math.min(page * pageSize, total)`. */
  function ServerRangeLabel(total: nat, page: int, pageSize: nat): (r: RangeLabel)
    ensures r.total == total && r.to <= total
  {
    RangeLabel((page - 1) * pageSize + 1, Min(page * pageSize, total), total)
  }

  /** The server-paged label is the label a client-side table over the whole
      list would show, so on a page in range it names exactly the rows of
      that page of the full list. */
  lemma ServerLabelMatchesFullList<T>(all: seq<T>, page: int, pageSize: nat)
    requires pageSize > 0
    requires 1 <= page <= TotalPages(|all|, pageSize)
    ensures ServerRangeLabel(|all|, page, pageSize) == SliceRangeLabel(|all|, page, pageSize)
    ensures var l := ServerRangeLabel(|all|, page, pageSize);
      1 <= l.from <= l.to && all[l.from - 1..l.to] == VisiblePage(all, page, pageSize)
  {
    assert PageStart(page, pageSize) + pageSize == page * pageSize;
    SliceRangeLabelMatchesPage(all, page, pageSize);
  }

  /** The page buttons are shown only when there is more than one page. */
  function ShowsPageControls(total: nat, pageSize: nat): (r: bool)
    requires pageSize > 0
    ensures r <==> total > pageSize
  {
    var n := TotalPages(total, pageSize);
    if n > 1 then MulMonotone(1, n - 1, pageSize); true
    else MulMonotone(n, 1, pageSize); false
  }

  function GoTo(t: Table, target: int, total: nat): (r: Table)
    requires t.pageSize > 0
    ensures 1 <= r.page <= Max(1, TotalPages(total, t.pageSize))
    ensures 1 <= target <= TotalPages(total, t.pageSize) ==> r.page == target
    ensures r == t.(page := r.page)
  {
    t.(page := GoToPage(target, TotalPages(total, t.pageSize)))
  }

  /** Choosing a page size (the effect on `pageSize` resets the page). */
  function SetPageSize(t: Table, size: nat): (r: Table)
    ensures r.pageSize == size && r.page == 1
    ensures r == t.(pageSize := r.pageSize, page := r.page)
  {
    t.(pageSize := size, page := 1)
  }

  /** After a page-size change the label starts at row 1. */
  lemma PageSizeChangeShowsFirstRows(t: Table, size: nat, total: nat)
    requires size > 0 && total > 0
    ensures var l := ServerRangeLabel(total, SetPageSize(t, size).page, size);
      l.from == 1 && l.to == Min(size, total)
  {
  }

  function HandleViewDetails(t: Table, s: StudentResponse): (r: Table)
    ensures r.detailsOpen && r.detailsStudent == Some(s) && r.openDropdownId.None?
    ensures r == t.(detailsOpen := r.detailsOpen, detailsStudent := r.detailsStudent, openDropdownId := r.openDropdownId)
  {
    t.(detailsOpen := true, detailsStudent := Some(s), openDropdownId := None)
  }

  function HandleEdit(t: Table, s: StudentResponse): (r: Table)
    ensures r.editOpen && r.selectedStudent == Some(s) && r.openDropdownId.None?
    ensures r == t.(editOpen := r.editOpen, selectedStudent := r.selectedStudent, openDropdownId := r.openDropdownId)
  {
    t.(selectedStudent := Some(s), editOpen := true, openDropdownId := None)
  }

  function HandleDelete(t: Table, s: StudentResponse): (r: Table)
    ensures r.deleteOpen && r.studentToDelete == Some(s) && r.openDropdownId.None?
    ensures r == t.(deleteOpen := r.deleteOpen, studentToDelete := r.studentToDelete, openDropdownId := r.openDropdownId)
  {
    t.(studentToDelete := Some(s), deleteOpen := true, openDropdownId := None)
  }

  /** `handleConfirmDelete`: the id to DELETE, if a student was chosen. */
  function HandleConfirmDelete(t: Table): (r: Option<string>)
    ensures r.Some? <==> t.studentToDelete.Some?
    ensures r.Some? ==> r.value == t.studentToDelete.value.id
  {
    match t.studentToDelete
    case None => None
    case Some(s) => Some(s.id)
  }

  /** `handleCancelDelete`, and the delete mutation's success handler. */
  function CloseDelete(t: Table): (r: Table)
    ensures !r.deleteOpen && r.studentToDelete.None?
    ensures r == t.(deleteOpen := r.deleteOpen, studentToDelete := r.studentToDelete)
  {
    t.(deleteOpen := false, studentToDelete := None)
  }

  function Toggle(t: Table, id: string): (r: Table)
    ensures r.openDropdownId == ToggleDropdown(t.openDropdownId, id)
    ensures r == t.(openDropdownId := r.openDropdownId)
  {
    t.(openDropdownId := ToggleDropdown(t.openDropdownId, id))
  }

  /** The delete flow: confirming deletes the student whose menu was used;
      cancelling or finishing leaves nothing to confirm. */
  lemma DeleteFlow(t: Table, s: StudentResponse)
    ensures HandleConfirmDelete(HandleDelete(t, s)) == Some(s.id)
    ensures HandleConfirmDelete(CloseDelete(HandleDelete(t, s))).None?
  {
  }

  /** Each row action first opens that row's menu; the action then closes it. */
  lemma RowActionsCloseMenu(t: Table, s: StudentResponse)
    requires t.openDropdownId.None?
    ensures Toggle(t, s.id).openDropdownId == Some(s.id)
    ensures HandleViewDetails(Toggle(t, s.id), s).openDropdownId == t.openDropdownId
    ensures HandleEdit(Toggle(t, s.id), s).openDropdownId == t.openDropdownId
    ensures HandleDelete(Toggle(t, s.id), s).openDropdownId == t.openDropdownId
  {
  }
}
