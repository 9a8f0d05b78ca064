/** The search endpoint of api/handlers/search.go: GET /search binds the
    query string, fills in defaults, validates, and asks the search service
    for one page of results. Binding is an input (`None` when the query
    string does not bind; a parameter that is absent binds as 0) and the
    search service is the function `search`. */
module HandlersSearch {
  import opened Wrappers
  import opened Text
  import opened Decimal
  import opened Http
  import opened Validation

  const DefaultResultsPerPage: int := 20
  const DefaultPage: int := 1
  const MaxQueryLength: int := 1000
  const MaxPerPage: int := 100

  const BindQueryFailed: string := "failed to extract request body parameters"

  /** The query-string parameters as bound: query text, per_page, page. */
  datatype BoundSearch = BoundSearch(query: string, perPage: int, page: int)

  /** What the search service answers: the page of results and the total
      number of matches. */
  datatype SearchResults<R> = SearchResults(results: seq<R>, total: nat)

  /** The data of a successful reply: the results as the service gave
      them, the total, and the limit and offset the pagination is computed
      from. */
  datatype SearchBody<R> = SearchBody(results: seq<R>, total: nat, limit: int, offset: int)

  /** A field left at 0 takes its default. */
  function WithDefault(value: int, default: int): int
  {
    if value == 0 then default else value
  }

  /** SearchRequest, whose defaults are filled in in place. */
  class SearchRequest {
    var query: string
    var perPage: int
    var page: int

    constructor (bound: BoundSearch)
      ensures query == bound.query && perPage == bound.perPage && page == bound.page
    {
      query := bound.query;
      perPage := bound.perPage;
      page := bound.page;
    }

    /** setDefaults: a per_page of 0 becomes 20 and a page of 0 becomes 1;
        any other value, and the query, are kept. */
    method SetDefaults()
      modifies this
      ensures query == old(query)
      ensures perPage == WithDefault(old(perPage), DefaultResultsPerPage)
      ensures page == WithDefault(old(page), DefaultPage)
    {
      if perPage == 0 {
        perPage := DefaultResultsPerPage;
      }
      if page == 0 {
        page := DefaultPage;
      }
    }
  }

  /** The first failed rule of `query`: required, valid_query, min=1,
      max=1000, in that order. Lengths count characters. */
  function QueryFailure(query: string): Option<string>
  {
    if query == [] then Some(TagRequired)
    else if !IsValidQuery(query) then Some(TagValidQuery)
    else if |query| < 1 then Some(TagMin)
    else if |query| > MaxQueryLength then Some(TagMax)
    else None
  }

  /** The first failed rule of `per_page`: min=1, max=100. */
  function PerPageFailure(perPage: int): Option<string>
  {
    if perPage < 1 then Some(TagMin) else if perPage > MaxPerPage then Some(TagMax) else None
  }

  /** The first failed rule of `page`: min=1. */
  function PageFailure(page: int): Option<string>
  {
    if page < 1 then Some(TagMin) else None
  }

  /** The failed rule of one field, as the validator lists it. */
  function Failed(tag: Option<string>, field: string): seq<FieldError>
  {
    if tag.Some? then [FieldError(tag.value, field)] else []
  }

  /** What the validator reports for a SearchRequest: its fields in
      declaration order, each with its first failed rule. The fields carry
      no json tag, so they are reported by their Go names. */
  function SearchRequestCheck(query: string, perPage: int, page: int, text: string): StructCheck
  {
    var errors := Failed(QueryFailure(query), ReportedName("", "Query"))
                  + Failed(PerPageFailure(perPage), ReportedName("", "PerPage"))
                  + Failed(PageFailure(page), ReportedName("", "Page"));
    if errors == [] then Passed else FieldErrors(errors, text)
  }

  /** The bounds a search request must meet. */
  predicate WithinBounds(query: string, perPage: int, page: int)
  {
    && 1 <= |query| <= MaxQueryLength && !IsBlank(query)
    && 1 <= perPage <= MaxPerPage
    && 1 <= page
  }

  /** The validator passes a request exactly when it is within the bounds;
      when it does not, the message names the first field out of bounds:
      the query, then per_page, then page. */
  lemma {:induction false} SearchRequestCheckShape(query: string, perPage: int, page: int, text: string)
    ensures SearchRequestCheck(query, perPage, page, text).Passed? <==> WithinBounds(query, perPage, page)
    ensures query == [] ==> Message(SearchRequestCheck(query, perPage, page, text), CustomTagErrors())
                             == Some(RequiredMessage("Query"))
    ensures query != [] && IsBlank(query) ==>
              Message(SearchRequestCheck(query, perPage, page, text), CustomTagErrors()) == Some(InvalidQueryError)
    ensures !IsBlank(query) && |query| > MaxQueryLength ==>
              Message(SearchRequestCheck(query, perPage, page, text), CustomTagErrors()) == Some(RangeMessage("Query"))
    ensures QueryFailure(query).None? && !(1 <= perPage <= MaxPerPage) ==>
              Message(SearchRequestCheck(query, perPage, page, text), CustomTagErrors()) == Some(RangeMessage("PerPage"))
    ensures QueryFailure(query).None? && PerPageFailure(perPage).None? && page < 1 ==>
              Message(SearchRequestCheck(query, perPage, page, text), CustomTagErrors()) == Some(RangeMessage("Page"))
  {
    assert ReportedName("", "Query") == "Query";
    assert ReportedName("", "PerPage") == "PerPage";
    assert ReportedName("", "Page") == "Page";
    assert IsValidQuery(query) <==> !IsBlank(query);
  }

  /** Go's 64-bit signed arithmetic: the value wrapped into the int range. */
  function WrapInt64(x: int): (r: int)
    ensures MinInt64 <= r <= MaxInt64
    ensures MinInt64 <= x <= MaxInt64 ==> r == x
  {
    (x - MinInt64) % 0x1_0000_0000_0000_0000 + MinInt64
  }

  /** The offset of a page: (page - 1) * per_page, in 64-bit arithmetic. */
  function Offset(perPage: int, page: int): int
  {
    WrapInt64((page - 1) * perPage)
  }

  /** Within the bounds, the offset is the number of results on the pages
      before `page` as long as that number fits in 64 bits; it is then not
      negative. */
  lemma {:induction false} OffsetSkipsEarlierPages(perPage: int, page: int)
    requires 1 <= perPage <= MaxPerPage && 1 <= page
    requires (page - 1) * perPage <= MaxInt64
    ensures Offset(perPage, page) == (page - 1) * perPage
    ensures Offset(perPage, page) >= 0
  {
    var n := page - 1;
    assert n * perPage >= 0 by {
      assert n >= 0 && perPage >= 0;
    }
  }

  /** Page numbers have no upper bound, so a large one wraps the offset
      round to a negative value. */
  lemma {:induction false} OffsetWrapsForHugePages()
    ensures WithinBounds("a", MaxPerPage, 92233720368547760)
    ensures Offset(MaxPerPage, 92233720368547760) == -9223372036854775716
  {
    assert !IsSpace("a"[0]);
  }

  /** handleSearch's reply. */
  function SearchReply<R>(bound: Option<BoundSearch>, text: string,
                          search: (string, int, int) -> Result<SearchResults<R>, string>): Reply<SearchBody<R>>
  {
    if bound.None? then Failure(StatusUnprocessableEntity, BindQueryFailed)
    else
      var query := bound.value.query;
      var perPage := WithDefault(bound.value.perPage, DefaultResultsPerPage);
      var page := WithDefault(bound.value.page, DefaultPage);
      var message := Message(SearchRequestCheck(query, perPage, page, text), CustomTagErrors());
      if message.Some? then Failure(StatusNotAcceptable, message.value)
      else
        var limit := perPage;
        var offset := Offset(perPage, page);
        var answer := search(query, limit, offset);
        if answer.Err? then Failure(StatusInternalServerError, answer.error)
        else Success(StatusOK, SearchBody(answer.value.results, answer.value.total, limit, offset))
  }

  /** The order of handleSearch's decisions: 422 when the query string does
      not bind; 406 when the request with its defaults is out of bounds;
      500 with the service's error when the search fails; and otherwise 200
      carrying the service's results unchanged, its total, the limit
      per_page and the offset of the page. */
  lemma {:induction false} SearchOrder<R>(bound: Option<BoundSearch>, text: string,
                                          search: (string, int, int) -> Result<SearchResults<R>, string>)
    ensures var r := SearchReply(bound, text, search);
            && (r.status == StatusUnprocessableEntity <==> bound.None?)
            && (bound.Some? ==>
                  var query := bound.value.query;
                  var perPage := WithDefault(bound.value.perPage, DefaultResultsPerPage);
                  var page := WithDefault(bound.value.page, DefaultPage);
                  var answer := search(query, perPage, Offset(perPage, page));
                  && (r.status == StatusNotAcceptable <==> !WithinBounds(query, perPage, page))
                  && (WithinBounds(query, perPage, page) && answer.Err? ==>
                        r == Failure(StatusInternalServerError, answer.error))
                  && (WithinBounds(query, perPage, page) && answer.Ok? ==>
                        && r.status == StatusOK && r.errors == [] && r.data.Some?
                        && r.data.value.results == answer.value.results
                        && r.data.value.total == answer.value.total
                        && r.data.value.limit == perPage
                        && r.data.value.offset == Offset(perPage, page)))
  {
    if bound.Some? {
      var perPage := WithDefault(bound.value.perPage, DefaultResultsPerPage);
      var page := WithDefault(bound.value.page, DefaultPage);
      var check := SearchRequestCheck(bound.value.query, perPage, page, text);
      SearchRequestCheckShape(bound.value.query, perPage, page, text);
      MessageShape(check);
    }
  }

  /** The request cases of the handler's tests with no query or an empty
      one: refused with 406 and the missing-field message. */
  lemma {:induction false} SearchEmptyQueryRefused<R>(text: string,
                                                     search: (string, int, int) -> Result<SearchResults<R>, string>)
    ensures SearchReply(Some(BoundSearch("", 0, 0)), text, search)
            == Failure(StatusNotAcceptable, "missing required field 'Query'")
  {
    SearchRequestCheckShape("", DefaultResultsPerPage, DefaultPage, text);
    assert RequiredMessage("Query") == "missing required field 'Query'";
  }

  /** The handler's test with a query of 1001 characters: refused with 406
      and the range message. */
  lemma {:induction false} SearchLongQueryRefused<R>(text: string,
                                                    search: (string, int, int) -> Result<SearchResults<R>, string>)
    ensures SearchReply(Some(BoundSearch(seq(1001, _ => 'a'), 0, 0)), text, search)
            == Failure(StatusNotAcceptable, RangeMessage("Query"))
  {
    var long := seq(1001, _ => 'a');
    assert !IsSpace(long[0]);
    SearchRequestCheckShape(long, DefaultResultsPerPage, DefaultPage, text);
  }

  /** The handler's tests with a per_page or a page of -1: refused with 406
      and the range message naming the field. */
  lemma {:induction false} SearchNegativeNumbersRefused<R>(text: string,
                                                          search: (string, int, int) -> Result<SearchResults<R>, string>)
    ensures SearchReply(Some(BoundSearch("test", -1, 0)), text, search)
            == Failure(StatusNotAcceptable, RangeMessage("PerPage"))
    ensures SearchReply(Some(BoundSearch("test", 0, -1)), text, search)
            == Failure(StatusNotAcceptable, RangeMessage("Page"))
  {
    assert !IsSpace("test"[0]);
    SearchRequestCheckShape("test", -1, DefaultPage, text);
    SearchRequestCheckShape("test", DefaultResultsPerPage, -1, text);
  }

  /** A request with only a query asks for 20 results from offset 0. */
  lemma {:induction false} SearchDefaultsApplied<R>(text: string,
                                                   search: (string, int, int) -> Result<SearchResults<R>, string>)
    ensures var answer := search("test", DefaultResultsPerPage, 0);
            answer.Ok? ==>
              SearchReply(Some(BoundSearch("test", 0, 0)), text, search)
              == Success(StatusOK, SearchBody(answer.value.results, answer.value.total, DefaultResultsPerPage, 0))
  {
    assert !IsSpace("test"[0]);
    SearchRequestCheckShape("test", DefaultResultsPerPage, DefaultPage, text);
    MessageShape(SearchRequestCheck("test", DefaultResultsPerPage, DefaultPage, text));
  }

  /** handleSearch: bind, fill in the defaults, validate, then search for
      the page. */
  method HandleSearch<R>(validator: Validator, bound: Option<BoundSearch>, text: string,
                         search: (string, int, int) -> Result<SearchResults<R>, string>)
    returns (reply: Reply<SearchBody<R>>)
    requires validator.Valid()
    modifies validator`tagErrors, validator`detailsFilled
    ensures validator.Valid()
    ensures reply == SearchReply(bound, text, search)
  {
    if bound.None? {
      return Failure(StatusUnprocessableEntity, BindQueryFailed);
    }
    var request := new SearchRequest(bound.value);
    request.SetDefaults();
    var message := validator.Validate(SearchRequestCheck(request.query, request.perPage, request.page, text));
    if message.Some? {
      return Failure(StatusNotAcceptable, message.value);
    }
    var limit := request.perPage;
    var offset := WrapInt64((request.page - 1) * request.perPage);
    var answer := search(request.query, limit, offset);
    if answer.Err? {
      return Failure(StatusInternalServerError, answer.error);
    }
    return Success(StatusOK, SearchBody(answer.value.results, answer.value.total, limit, offset));
  }
}
