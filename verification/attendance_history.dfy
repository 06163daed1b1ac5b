/** The attendance-history dashboard: the filters that shape the history
    query, and client-side pagination of the sessions it returns. */
module AttendanceHistory {
  import opened Wrappers
  import opened Tables

  /** The session filter: "" (both), "morning" or "evening". */
  datatype SessionFilter = AnySession | MorningOnly | EveningOnly

  function SessionType(f: SessionFilter): string {
    match f
    case AnySession => ""
    case MorningOnly => "morning"
    case EveningOnly => "evening"
  }

  datatype History = History(
    dateFilter: string,
    sessionFilter: SessionFilter,
    searchQuery: string,
    currentPage: int,
    pageSize: nat,
    openDropdownId: Option<string>)

  const Initial: History := History("", AnySession, "", 1, 10, None)

  /** The parameters of the history request. */
  datatype HistoryQuery = HistoryQuery(date: string, sessionType: string)

  function QueryOf(h: History): HistoryQuery {
    HistoryQuery(h.dateFilter, SessionType(h.sessionFilter))
  }

  /** The query names the filters exactly: distinct filter settings make
      distinct requests. */
  lemma QueryDeterminesFilters(h1: History, h2: History)
    requires QueryOf(h1) == QueryOf(h2)
    ensures h1.dateFilter == h2.dateFilter && h1.sessionFilter == h2.sessionFilter
  {
    var s1, s2 := SessionType(h1.sessionFilter), SessionType(h2.sessionFilter);
    assert s1 == s2;
    assert |s1| == 0 || s1[0] == s2[0];
  }

  /** The user actions on the dashboard. */
  datatype Action =
    | SetDate(date: string)
    | SelectMorning
    | SelectEvening
    | ClearSession
    | SetSearch(query: string)
    | SetPageSize(size: nat)
    | GoTo(target: int, count: nat)
    | ToggleMenu(id: string)
    | ViewDetails

  /** Whether the "Clear" button is on screen (`sessionFilter &&`). */
  predicate ShowsClear(h: History) {
    SessionType(h.sessionFilter) != ""
  }

  function Apply(h: History, a: Action): (r: History)
    requires a.GoTo? ==> h.pageSize > 0
    ensures a.SetDate? || a.SelectMorning? || a.SelectEvening? || a.ClearSession? || a.SetPageSize? ==> r.currentPage == 1
    ensures a.SetSearch? ==> QueryOf(r) == QueryOf(h) && r.currentPage == h.currentPage
    ensures a.GoTo? ==> 1 <= r.currentPage <= Max(1, TotalPages(a.count, h.pageSize))
    ensures a.ViewDetails? ==> r.openDropdownId.None?
    ensures a.SetDate? ==> QueryOf(r) == HistoryQuery(a.date, SessionType(h.sessionFilter))
    ensures a.SelectMorning? ==> QueryOf(r) == HistoryQuery(h.dateFilter, "morning")
    ensures a.SelectEvening? ==> QueryOf(r) == HistoryQuery(h.dateFilter, "evening")
    ensures a.ClearSession? ==> QueryOf(r) == HistoryQuery(h.dateFilter, "")
    ensures a.SetSearch? ==> r.searchQuery == a.query
    ensures a.SetPageSize? ==> r.pageSize == a.size
    ensures a.ToggleMenu? ==> r.openDropdownId == ToggleDropdown(h.openDropdownId, a.id)
    ensures a.GoTo? || a.ToggleMenu? || a.ViewDetails? || a.SetPageSize? ==> QueryOf(r) == QueryOf(h)
    ensures !a.SetPageSize? ==> r.pageSize == h.pageSize
    ensures !(a.ToggleMenu? || a.ViewDetails?) ==> r.openDropdownId == h.openDropdownId
  {
    match a
    case SetDate(d) => h.(dateFilter := d, currentPage := 1)
    case SelectMorning => h.(sessionFilter := MorningOnly, currentPage := 1)
    case SelectEvening => h.(sessionFilter := EveningOnly, currentPage := 1)
    case ClearSession => h.(sessionFilter := AnySession, currentPage := 1)
    case SetSearch(q) => h.(searchQuery := q)
    case SetPageSize(n) => h.(pageSize := n, currentPage := 1)
    case GoTo(target, count) => h.(currentPage := GoToPage(target, TotalPages(count, h.pageSize)))
    case ToggleMenu(id) => h.(openDropdownId := ToggleDropdown(h.openDropdownId, id))
    case ViewDetails => h.(openDropdownId := None)
  }

  /** Whenever an action changes what is fetched, or how it is cut into
      pages, the dashboard goes back to page 1. */
  lemma NewResultsStartAtPageOne(h: History, a: Action)
    requires a.GoTo? ==> h.pageSize > 0
    ensures var r := Apply(h, a);
      QueryOf(r) != QueryOf(h) || r.pageSize != h.pageSize ==> r.currentPage == 1
  {
  }

  /** The "Clear" button shows exactly when a session is chosen, and
      pressing it brings back the unfiltered query for the same date. */
  lemma ClearUndoesSessionChoice(h: History)
    ensures ShowsClear(h) <==> h.sessionFilter != AnySession
    ensures !ShowsClear(Apply(h, ClearSession))
    ensures QueryOf(Apply(Apply(h, SelectMorning), ClearSession)) == HistoryQuery(h.dateFilter, "")
    ensures QueryOf(Apply(Apply(h, SelectEvening), ClearSession)) == HistoryQuery(h.dateFilter, "")
  {
  }

  /** The sessions shown: `data?.slice(start, end) || []`. */
  function Visible<T>(rows: Option<seq<T>>, h: History): (r: seq<T>)
    ensures |r| <= h.pageSize
    ensures rows.None? ==> r == []
  {
    match rows
    case None => []
    case Some(data) => VisiblePage(data, h.currentPage, h.pageSize)
  }

  /** "from to to of total" with a missing list counted as empty. */
  function Label<T>(rows: Option<seq<T>>, h: History): (r: RangeLabel)
    ensures r.total == |rows.GetOr([])|
  {
    SliceRangeLabel(|rows.GetOr([])|, h.currentPage, h.pageSize)
  }

  /** After a filter or page-size change the first sessions of the new
      result are shown, and the label counts them. */
  lemma FilterChangeShowsFirstPage<T>(data: seq<T>, h: History, a: Action)
    requires a.SetDate? || a.SelectMorning? || a.SelectEvening? || a.ClearSession? || (a.SetPageSize? && a.size > 0)
    requires a.SetPageSize? || h.pageSize > 0
    ensures var r := Apply(h, a);
      && Visible(Some(data), r) == data[..Min(r.pageSize, |data|)]
      && (data != [] ==> Label(Some(data), r) == RangeLabel(1, Min(r.pageSize, |data|), |data|))
  {
    var r := Apply(h, a);
    if data != [] {
      SliceRangeLabelMatchesPage(data, 1, r.pageSize);
    }
  }
}
