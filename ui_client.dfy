/** The state of the browser client of ui/script.js: the list of recent
    paths, the shared busy flag, the current search and its page, and the
    pagination controls. Each asynchronous handler is split at its `await`:
    a Begin method runs up to the request, which it returns, and a Complete
    method takes what the request came to. Rendering, the DOM and fetch are
    not modelled; the text of the input fields is a parameter. */
module UiClient {
  import opened Wrappers
  import opened Text
  import opened Decimal

  const MaxRecentPaths: nat := 5
  const ResultsPerPage: int := 10

  const EnterFolderPath: string := "Please enter a folder path"
  const EnterSearchQuery: string := "Please enter a search query"
  const IndexingFiles: string := "Indexing files..."
  const Searching: string := "Searching..."
  const IndexFailed: string := "Failed to index files"
  const SearchFailed: string := "Search failed"
  const IndexedFrom: string := "Successfully indexed files from "

  /** How a status message is shown. */
  datatype Kind = Loading | Succeeded | Failed

  /** A status line: hidden, or a message of some kind. */
  datatype Status = Hidden | Shown(message: string, kind: Kind)

  /** What the request to POST /index came to: an exception with its message,
      or a response, ok or not, with the `errors` of its body when present. */
  datatype IndexOutcome = IndexThrew(message: string) | IndexAnswered(ok: bool, errors: Option<seq<string>>)

  /** What the request to GET /search came to: an exception with its message,
      or a response with the `errors` of its body and the `total_pages` and
      `current_page` of its page details, each when present. */
  datatype SearchOutcome =
    | SearchThrew(message: string)
    | SearchAnswered(ok: bool, errors: Option<seq<string>>, totalPages: Option<int>, currentPage: Option<int>)

  /** A search request: the query, the page and the page size. */
  datatype SearchCall = SearchCall(query: string, page: int, perPage: int)

  /** JavaScript's `value || fallback` on a number: a missing value or 0
      gives the fallback. */
  function OrDefault(value: Option<int>, fallback: int): (r: int)
    ensures r != 0 || fallback == 0
    ensures value.Some? && value.value != 0 ==> r == value.value
    ensures value.None? || value.value == 0 ==> r == fallback
  {
    if value.Some? && value.value != 0 then value.value else fallback
  }

  /** The error line of a failed response: the body's errors joined by ", ",
      or the fallback when the body has none. */
  function ErrorText(errors: Option<seq<string>>, fallback: string): (text: string)
    ensures HasPrefix(text, "Error: ")
    ensures errors.None? ==> text == "Error: " + fallback
    ensures errors.Some? && |errors.value| == 1 ==> text == "Error: " + errors.value[0]
  {
    "Error: " + (if errors.Some? then Join(errors.value, ", ") else fallback)
  }

  /** The page line of the pagination controls. */
  function PageInfo(currentPage: int, totalPages: int): string
  {
    "Page " + Itoa(currentPage) + " of " + Itoa(totalPages)
  }

  /** No entry occurs twice. */
  predicate Unique(paths: seq<string>)
  {
    forall i, j :: 0 <= i < j < |paths| ==> paths[i] != paths[j]
  }

  /** The recent paths after addToRecentPaths(path). */
  function AddedToRecent(paths: seq<string>, path: string): seq<string>
  {
    if path in paths then paths
    else
      var front := [path] + paths;
      if |front| > MaxRecentPaths then front[..|front| - 1] else front
  }

  /** A path already listed leaves the list as it is (it is not moved to
      the front). A new path goes to the front with the others behind it in
      their old order, the last one dropped once there would be more than
      five. So a list of at most five distinct paths stays one. */
  lemma {:induction false} AddedToRecentShape(paths: seq<string>, path: string)
    ensures path in paths ==> AddedToRecent(paths, path) == paths
    ensures path !in paths ==>
              var r := AddedToRecent(paths, path);
              && |r| == (if |paths| >= MaxRecentPaths then |paths| else |paths| + 1)
              && r[0] == path
              && r[1..] == paths[..|r| - 1]
    ensures |paths| <= MaxRecentPaths && Unique(paths) ==>
              var r := AddedToRecent(paths, path);
              |r| <= MaxRecentPaths && Unique(r) && path in r
  {
    if path !in paths {
      var front := [path] + paths;
      var r := AddedToRecent(paths, path);
      assert front[1..] == paths;
      if |front| > MaxRecentPaths {
        assert r[1..] == paths[..|r| - 1];
      }
      assert r[0] == path;
      if Unique(paths) {
        forall i, j | 0 <= i < j < |r|
          ensures r[i] != r[j]
        {
          assert r[j] == paths[j - 1];
          if i > 0 {
            assert r[i] == paths[i - 1];
          } else {
            assert paths[j - 1] in paths;
          }
        }
      }
    }
  }

  class Client {
    var currentPage: int
    var currentQuery: string
    var totalPages: int
    var isLoading: bool
    var recentPaths: seq<string>
    /** Every list written to local storage, in order. */
    var stored: seq<seq<string>>
    var indexStatus: Status
    var searchStatus: Status
    var indexDisabled: bool
    var searchDisabled: bool
    var prevDisabled: bool
    var nextDisabled: bool
    var pageInfo: string

    /** The pagination controls show the current page: the previous button
        is disabled exactly on the first page, the next button exactly on
        the last. */
    ghost predicate PaginationShown()
      reads this
    {
      && prevDisabled == (currentPage <= 1)
      && nextDisabled == (currentPage >= totalPages)
      && pageInfo == PageInfo(currentPage, totalPages)
    }

    /** The initial state; the recent paths come from local storage, or
        are empty when it holds none. The controls start as the page's
        markup has them, which is not modelled. */
    constructor (storedPaths: Option<seq<string>>)
      ensures currentPage == 1 && currentQuery == [] && totalPages == 1 && !isLoading
      ensures recentPaths == (if storedPaths.Some? then storedPaths.value else [])
      ensures stored == [] && indexStatus == Hidden && searchStatus == Hidden
      ensures !indexDisabled && !searchDisabled
    {
      currentPage := 1;
      currentQuery := [];
      totalPages := 1;
      isLoading := false;
      recentPaths := if storedPaths.Some? then storedPaths.value else [];
      stored := [];
      indexStatus := Hidden;
      searchStatus := Hidden;
      indexDisabled := false;
      searchDisabled := false;
      prevDisabled := true;
      nextDisabled := true;
      pageInfo := [];
    }

    /** updatePagination. */
    method UpdatePagination()
      modifies this`prevDisabled, this`nextDisabled, this`pageInfo
      ensures PaginationShown()
    {
      prevDisabled := currentPage <= 1;
      nextDisabled := currentPage >= totalPages;
      pageInfo := PageInfo(currentPage, totalPages);
    }

    /** addToRecentPaths: a path already listed changes nothing and nothing
        is stored; a new one is put in front, the list trimmed to five, and
        the list stored. */
    method AddToRecentPaths(path: string)
      modifies this`recentPaths, this`stored
      ensures recentPaths == AddedToRecent(old(recentPaths), path)
      ensures path in old(recentPaths) ==> stored == old(stored)
      ensures path !in old(recentPaths) ==> stored == old(stored) + [recentPaths]
    {
      if path !in recentPaths {
        recentPaths := [path] + recentPaths;
        if |recentPaths| > MaxRecentPaths {
          recentPaths := recentPaths[..|recentPaths| - 1];
        }
        stored := stored + [recentPaths];
      }
    }

    /** handleIndex up to its request. An empty path (after trimming) is
        refused with a message before the busy flag is looked at; while
        busy nothing happens; otherwise the client turns busy and returns the
        path to index. */
    method BeginIndex(input: string) returns (request: Option<string>)
      modifies this`indexStatus, this`isLoading, this`indexDisabled
      ensures TrimSpace(input) == [] ==>
                request.None? && indexStatus == Shown(EnterFolderPath, Failed)
                && isLoading == old(isLoading) && indexDisabled == old(indexDisabled)
      ensures TrimSpace(input) != [] && old(isLoading) ==> request.None? && unchanged(this)
      ensures TrimSpace(input) != [] && !old(isLoading) ==>
                && request == Some(TrimSpace(input))
                && isLoading && indexDisabled && indexStatus == Shown(IndexingFiles, Loading)
    {
      var folderPath := TrimSpace(input);
      if folderPath == [] {
        indexStatus := Shown(EnterFolderPath, Failed);
        return None;
      }
      if isLoading {
        return None;
      }
      isLoading := true;
      indexDisabled := true;
      indexStatus := Shown(IndexingFiles, Loading);
      return Some(folderPath);
    }

    /** handleIndex after its request: an ok response records the path
        among the recent paths; a failed one shows its errors, or the
        fallback; an exception shows its message. The client is not busy
        afterwards, whatever the outcome. */
    method CompleteIndex(folderPath: string, outcome: IndexOutcome)
      modifies this`indexStatus, this`isLoading, this`indexDisabled, this`recentPaths, this`stored
      ensures !isLoading && !indexDisabled
      ensures outcome.IndexAnswered? && outcome.ok ==>
                && indexStatus == Shown(IndexedFrom + folderPath, Succeeded)
                && recentPaths == AddedToRecent(old(recentPaths), folderPath)
                && (folderPath in old(recentPaths) ==> stored == old(stored))
                && (folderPath !in old(recentPaths) ==> stored == old(stored) + [recentPaths])
      ensures outcome.IndexAnswered? && !outcome.ok ==>
                indexStatus == Shown(ErrorText(outcome.errors, IndexFailed), Failed)
      ensures outcome.IndexThrew? ==> indexStatus == Shown("Error: " + outcome.message, Failed)
      ensures !(outcome.IndexAnswered? && outcome.ok) ==> recentPaths == old(recentPaths) && stored == old(stored)
    {
      match outcome {
        case IndexThrew(message) =>
          indexStatus := Shown("Error: " + message, Failed);
        case IndexAnswered(ok, errors) =>
          if ok {
            indexStatus := Shown(IndexedFrom + folderPath, Succeeded);
            AddToRecentPaths(folderPath);
          } else {
            indexStatus := Shown(ErrorText(errors, IndexFailed), Failed);
          }
      }
      isLoading := false;
      indexDisabled := false;
    }

    /** handleSearch(page) up to its request: an empty query (after
        trimming) is refused with a message; while busy nothing happens;
        otherwise the client turns busy and asks for `page` of ten results. */
    method BeginSearch(input: string, page: int) returns (call: Option<SearchCall>)
      modifies this`searchStatus, this`isLoading, this`searchDisabled
      ensures TrimSpace(input) == [] ==>
                call.None? && searchStatus == Shown(EnterSearchQuery, Failed)
                && isLoading == old(isLoading) && searchDisabled == old(searchDisabled)
      ensures TrimSpace(input) != [] && old(isLoading) ==> call.None? && unchanged(this)
      ensures TrimSpace(input) != [] && !old(isLoading) ==>
                && call == Some(SearchCall(TrimSpace(input), page, ResultsPerPage))
                && isLoading && searchDisabled && searchStatus == Shown(Searching, Loading)
    {
      var query := TrimSpace(input);
      if query == [] {
        searchStatus := Shown(EnterSearchQuery, Failed);
        return None;
      }
      if isLoading {
        return None;
      }
      isLoading := true;
      searchDisabled := true;
      searchStatus := Shown(Searching, Loading);
      return Some(SearchCall(query, page, ResultsPerPage));
    }

    /** displayResults, its state part: the page count and the current page
        from the page details, 1 when missing or 0, then the controls. */
    method DisplayResults(totalPagesField: Option<int>, currentPageField: Option<int>)
      modifies this`totalPages, this`currentPage, this`prevDisabled, this`nextDisabled, this`pageInfo
      ensures totalPages == OrDefault(totalPagesField, 1)
      ensures currentPage == OrDefault(currentPageField, 1)
      ensures PaginationShown()
    {
      totalPages := OrDefault(totalPagesField, 1);
      currentPage := OrDefault(currentPageField, 1);
      UpdatePagination();
    }

    /** handleSearch after its request: an ok response makes `query` the
        current query and takes the pages from the response; a failed one
        or an exception shows an error and keeps the current search. The
        client is not busy afterwards, whatever the outcome. */
    method CompleteSearch(query: string, page: int, outcome: SearchOutcome)
      modifies this`searchStatus, this`isLoading, this`searchDisabled, this`currentQuery, this`currentPage,
               this`totalPages, this`prevDisabled, this`nextDisabled, this`pageInfo
      ensures !isLoading && !searchDisabled
      ensures outcome.SearchAnswered? && outcome.ok ==>
                && currentQuery == query
                && totalPages == OrDefault(outcome.totalPages, 1)
                && currentPage == OrDefault(outcome.currentPage, 1)
                && PaginationShown()
                && searchStatus == Hidden
      ensures outcome.SearchAnswered? && !outcome.ok ==>
                searchStatus == Shown(ErrorText(outcome.errors, SearchFailed), Failed)
      ensures outcome.SearchThrew? ==> searchStatus == Shown("Error: " + outcome.message, Failed)
      ensures !(outcome.SearchAnswered? && outcome.ok) ==>
                && currentQuery == old(currentQuery) && currentPage == old(currentPage)
                && totalPages == old(totalPages)
                && prevDisabled == old(prevDisabled) && nextDisabled == old(nextDisabled)
                && pageInfo == old(pageInfo)
    {
      match outcome {
        case SearchThrew(message) =>
          searchStatus := Shown("Error: " + message, Failed);
        case SearchAnswered(ok, errors, totalPagesField, currentPageField) =>
          if ok {
            currentQuery := query;
            currentPage := page;
            DisplayResults(totalPagesField, currentPageField);
            searchStatus := Hidden;
          } else {
            searchStatus := Shown(ErrorText(errors, SearchFailed), Failed);
          }
      }
      isLoading := false;
      searchDisabled := false;
    }

    /** handlePrevPage: a search for the previous page, only past the first
        page; so never while the previous button is disabled. */
    method HandlePrevPage(input: string) returns (call: Option<SearchCall>)
      modifies this`searchStatus, this`isLoading, this`searchDisabled
      ensures old(currentPage) <= 1 ==> call.None? && unchanged(this)
      ensures call.Some? ==> old(currentPage) > 1 && call.value.page == old(currentPage) - 1
      ensures old(currentPage) > 1 && TrimSpace(input) != [] && !old(isLoading) ==>
                call == Some(SearchCall(TrimSpace(input), old(currentPage) - 1, ResultsPerPage))
      ensures old(PaginationShown()) && old(prevDisabled) ==> call.None?
    {
      if currentPage > 1 {
        call := BeginSearch(input, currentPage - 1);
      } else {
        call := None;
      }
    }

    /** handleNextPage: a search for the next page, only before the last
        page; so never while the next button is disabled. */
    method HandleNextPage(input: string) returns (call: Option<SearchCall>)
      modifies this`searchStatus, this`isLoading, this`searchDisabled
      ensures old(currentPage) >= old(totalPages) ==> call.None? && unchanged(this)
      ensures call.Some? ==> old(currentPage) < old(totalPages) && call.value.page == old(currentPage) + 1
      ensures old(currentPage) < old(totalPages) && TrimSpace(input) != [] && !old(isLoading) ==>
                call == Some(SearchCall(TrimSpace(input), old(currentPage) + 1, ResultsPerPage))
      ensures old(PaginationShown()) && old(nextDisabled) ==> call.None?
    {
      if currentPage < totalPages {
        call := BeginSearch(input, currentPage + 1);
      } else {
        call := None;
      }
    }
  }
}
