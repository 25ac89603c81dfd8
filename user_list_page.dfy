/** The user list page: the rows and pagination last fetched, the
    committed search and the text in the search box, and the loading flags
    of the list fetch and of the CSV export. A fetch is split into its start
    (the request sent) and its end (the server's answer, given as a
    parameter). */
module UserListPage {
  import opened Common
  import opened UserModel
  import opened ListQuery
  import UserController

  const PageSize := 10

  /** A list request: `getUsers(page, limit, search)`. */
  datatype ListCall = ListCall(page: int, limit: int, search: string)

  datatype PageView = PageView(
    users: seq<User>,
    pagination: UserController.PageInfo,
    search: string,
    searchInput: string,
    loading: bool,
    exportLoading: bool)

  const Initial := PageView([], UserController.PageInfo(0, 1, 1, 10), "", "", false, false)

  /** The start of `fetchUsers(page)`: loading, and a request for that page
      with the page size and the committed search. */
  function FetchStart(v: PageView, page: int): (PageView, ListCall) {
    (v.(loading := true), ListCall(page, PageSize, v.search))
  }

  /** The end of a fetch: a listing replaces rows and pagination, a failure
      keeps them; loading ends either way. */
  function FetchEnd(v: PageView, answer: Option<UserController.Listing>): PageView {
    match answer
    case Some(l) => v.(users := l.data, pagination := l.pagination, loading := false)
    case None => v.(loading := false)
  }

  /** `handleSearch`: the trimmed box text becomes the search; when that
      changes the search, the effect fetches page 1. */
  function SearchStep(v: PageView): (PageView, Option<ListCall>) {
    var term := Trim(v.searchInput);
    var committed := v.(search := term);
    if term == v.search then (committed, None)
    else var (w, call) := FetchStart(committed, 1); (w, Some(call))
  }

  /** A key press in the search box: Enter searches, other keys do not. */
  function KeyStep(v: PageView, key: string): (PageView, Option<ListCall>) {
    if key == "Enter" then SearchStep(v) else (v, None)
  }

  /** The search effect's first run, when the page mounts: page 1. */
  function MountStep(v: PageView): (PageView, ListCall) {
    FetchStart(v, 1)
  }

  /** `onStatusChange` and `onDeleteSuccess`: the current page again. */
  function RefreshStep(v: PageView): (PageView, ListCall) {
    FetchStart(v, v.pagination.currentPage)
  }

  /** The Export button, disabled while an export runs. */
  function ExportStart(v: PageView): (PageView, bool) {
    if v.exportLoading then (v, false) else (v.(exportLoading := true), true)
  }

  function ExportEnd(v: PageView): PageView {
    v.(exportLoading := false)
  }

  /** A freshly mounted page shows page 1 of 1 with nothing in it, and asks
      for the first ten records with no search. */
  lemma InitialPage()
    ensures Initial.pagination.currentPage == 1 && Initial.pagination.totalPages == 1
    ensures Initial.pagination.totalRecords == 0 && Initial.pagination.pageSize == 10
    ensures Initial.search == "" && !Initial.loading && !Initial.exportLoading
    ensures MountStep(Initial).1 == ListCall(1, 10, "")
    ensures MountStep(Initial).0.loading
  {}

  /** Every fetch asks for PageSize rows under the committed search, and
      only raises the loading flag. */
  lemma FetchRequest(v: PageView, page: int)
    ensures FetchStart(v, page).1 == ListCall(page, 10, v.search)
    ensures FetchStart(v, page).0.loading
    ensures FetchStart(v, page).0.(loading := v.loading) == v
  {}

  /** A successful fetch shows exactly the answer; a failed one keeps the
      previous rows and pagination; loading is over in both cases. */
  lemma FetchOutcome(v: PageView, answer: Option<UserController.Listing>)
    ensures !FetchEnd(v, answer).loading
    ensures answer.Some? ==> (FetchEnd(v, answer).users == answer.value.data
                              && FetchEnd(v, answer).pagination == answer.value.pagination)
    ensures answer.None? ==> FetchEnd(v, answer) == v.(loading := false)
  {}

  /** The committed search is the trimmed box text; page 1 is fetched
      exactly when that differs from the previous search. */
  lemma SearchCommits(v: PageView)
    ensures SearchStep(v).0.search == Trim(v.searchInput)
    ensures SearchStep(v).1.Some? <==> Trim(v.searchInput) != v.search
    ensures SearchStep(v).1.Some? ==> SearchStep(v).1.value == ListCall(1, 10, Trim(v.searchInput))
    ensures SearchStep(v).0.users == v.users && SearchStep(v).0.pagination == v.pagination
  {}

  /** Searching again without typing fetches nothing. */
  lemma SearchTwice(v: PageView)
    ensures SearchStep(SearchStep(v).0).1.None?
  {}

  /** Enter behaves exactly like the Search button, and other keys do
      nothing. */
  lemma EnterIsSearch(v: PageView, key: string)
    ensures KeyStep(v, "Enter") == SearchStep(v)
    ensures key != "Enter" ==> KeyStep(v, key) == (v, None)
  {}

  /** A refresh after a status change or delete asks for the current page,
      not the first one. */
  lemma RefreshKeepsPage(v: PageView)
    ensures RefreshStep(v).1.page == v.pagination.currentPage
    ensures RefreshStep(v).1 == FetchStart(v, v.pagination.currentPage).1
  {}

  /** The export flag is set while an export runs and cleared after it;
      a click while it is set starts nothing. */
  lemma ExportFlag(v: PageView)
    ensures !v.exportLoading ==> ExportStart(v).1 && ExportStart(v).0.exportLoading
    ensures v.exportLoading ==> ExportStart(v) == (v, false)
    ensures !ExportEnd(ExportStart(v).0).exportLoading
  {}

  /** The text axios writes for a page number in the query string. */
  function NumberText(n: int): string {
    if n >= 0 then Decimal(n) else "-" + Decimal(-n)
  }

  /** The query the server receives for a list request. */
  function QueryOf(call: ListCall): UserController.Query {
    UserController.Query(Some(NumberText(call.page)), Some(NumberText(call.limit)), Some(call.search))
  }

  /** For any page from 1 on, the server reads back exactly the page, the
      page size and the search the page asked for, and answers with that
      page of the listing. */
  lemma ServerSeesCall(db: UserController.Db, v: PageView, page: int)
    requires page >= 1
    ensures var call := FetchStart(v, page).1;
      UserController.GetUsers(db, QueryOf(call)) == UserController.Done(UserController.PageOfUsers(db.users, page, 10, v.search))
  {
    ParseDecimal(page);
    ParseDecimal(10);
    assert Decimal(10) == "10" by {
      assert Decimal(1) == "1";
    }
  }

  /** The page's state. */
  class ListPageState {
    var users: seq<User>
    var pagination: UserController.PageInfo
    var search: string
    var searchInput: string
    var loading: bool
    var exportLoading: bool

    function View(): PageView
      reads this
    {
      PageView(users, pagination, search, searchInput, loading, exportLoading)
    }

    constructor ()
      ensures View() == Initial
    {
      users := [];
      pagination := UserController.PageInfo(0, 1, 1, 10);
      search := "";
      searchInput := "";
      loading := false;
      exportLoading := false;
    }

    /** Typing in the search box. */
    method SetSearchInput(text: string)
      modifies this
      ensures View() == old(View()).(searchInput := text)
    {
      searchInput := text;
    }

    method BeginFetch(page: int) returns (call: ListCall)
      modifies this
      ensures (View(), call) == FetchStart(old(View()), page)
    {
      loading := true;
      call := ListCall(page, PageSize, search);
    }

    method EndFetch(answer: Option<UserController.Listing>)
      modifies this
      ensures View() == FetchEnd(old(View()), answer)
    {
      if answer.Some? {
        users := answer.value.data;
        pagination := answer.value.pagination;
      }
      loading := false;
    }

    method Mount() returns (call: ListCall)
      modifies this
      ensures (View(), call) == MountStep(old(View()))
    {
      call := BeginFetch(1);
    }

    method HandleSearch() returns (call: Option<ListCall>)
      modifies this
      ensures (View(), call) == SearchStep(old(View()))
    {
      var term := Trim(searchInput);
      var changed := term != search;
      search := term;
      if changed {
        var c := BeginFetch(1);
        call := Some(c);
      } else {
        call := None;
      }
    }

    method HandleSearchKeyDown(key: string) returns (call: Option<ListCall>)
      modifies this
      ensures (View(), call) == KeyStep(old(View()), key)
    {
      if key == "Enter" {
        call := HandleSearch();
      } else {
        call := None;
      }
    }

    method Refresh() returns (call: ListCall)
      modifies this
      ensures (View(), call) == RefreshStep(old(View()))
    {
      call := BeginFetch(pagination.currentPage);
    }

    method BeginExport() returns (started: bool)
      modifies this
      ensures (View(), started) == ExportStart(old(View()))
    {
      if exportLoading {
        return false;
      }
      exportLoading := true;
      started := true;
    }

    method EndExport()
      modifies this
      ensures View() == ExportEnd(old(View()))
    {
      exportLoading := false;
    }
  }
}
