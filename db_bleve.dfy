/** The older Bleve store of db/bleve.go: it opens the index on every call,
    indexes in batches, and searches with one flat disjunction of clauses on
    the whole query. */
module LegacyDB {
  import opened Wrappers
  import opened Text
  import opened QueryTree
  import opened Batching
  import opened SearchModels

  /** The clauses of the flat query on `q`: matches on content, name and
      path, a content phrase, and, when `q` is longer than two bytes, prefix
      clauses on name and content. */
  function FlatClauses(q: string): seq<Query>
  {
    [Match(Content, q, ContentBoost), Match(Name, q, FileNameBoost), Match(Path, q, PathBoost),
     Phrase(Content, q, PhraseMatchBoost)]
    + (if |q| > 2 then [Prefix(Name, q, PartialMatchBoost), Prefix(Content, q, PartialMatchBoost)] else [])
  }

  /** buildSearchQuery. */
  function BuildSearchQuery(queryString: string): Query
  {
    var q := ToLower(TrimSpace(queryString));
    if q == [] then MatchAll else Disj(FlatClauses(q))
  }

  /** A blank query gives MatchAll and nothing else does; otherwise the
      disjunction starts with the content, name and path matches and the
      content phrase on the trimmed, lower-cased query, and holds the two
      prefix clauses as well exactly when that query is longer than two
      bytes. */
  lemma {:induction false} BuildSearchQueryShape(queryString: string)
    ensures BuildSearchQuery(queryString) == MatchAll <==> IsBlank(queryString)
    ensures !IsBlank(queryString) ==>
              var q := ToLower(TrimSpace(queryString));
              var built := BuildSearchQuery(queryString);
              && built.Disj?
              && built.clauses[..4]
                 == [Match(Content, q, ContentBoost), Match(Name, q, FileNameBoost), Match(Path, q, PathBoost),
                     Phrase(Content, q, PhraseMatchBoost)]
              && (|built.clauses| == 6 <==> |TrimSpace(queryString)| > 2)
              && (|built.clauses| == 4 <==> |TrimSpace(queryString)| <= 2)
              && (|built.clauses| == 6 ==>
                    built.clauses[4..] == [Prefix(Name, q, PartialMatchBoost), Prefix(Content, q, PartialMatchBoost)])
  {
    TrimSpaceEmptyIffBlank(queryString);
  }

  /** Why BuildIndex stopped: the index could not be opened, or a batch
      step failed. */
  datatype BuildError = OpenFailed(error: string) | BatchFailed(step: BatchError)

  /** BuildIndex: `openError` is the error of opening (or creating) the
      index, if any; then the documents are submitted in batches as in the
      newer store. */
  method BuildIndex(documents: seq<Document>, openError: Option<string>, addFails: set<nat>, flushFails: set<nat>)
    returns (flushed: seq<seq<Document>>, r: Outcome<BuildError>)
    ensures openError.Some? ==> flushed == [] && r == Fail(OpenFailed(openError.value))
    ensures |flushed| <= |Chunks(documents)| && flushed == Chunks(documents)[..|flushed|]
    ensures r.Pass? <==> openError.None? && (forall j :: 0 <= j < |documents| ==> j !in addFails)
                         && (forall k :: 0 <= k < |Chunks(documents)| ==> k !in flushFails)
    ensures r.Pass? ==> flushed == Chunks(documents)
    ensures r.Fail? && r.error.OpenFailed? ==> openError.Some?
    ensures r.Fail? && r.error.BatchFailed? ==> FirstFailure(documents, addFails, flushFails, |flushed|, r.error.step)
  {
    if openError.Some? {
      return [], Fail(OpenFailed(openError.value));
    }
    var outcome;
    flushed, outcome := SubmitInBatches(documents, addFails, flushFails);
    if outcome.Fail? {
      return flushed, Fail(BatchFailed(outcome.error));
    }
    return flushed, Pass;
  }

  datatype SearchResponse = SearchResponse(results: seq<Item>, total: nat, maxScore: real, searchTime: string)

  /** Search: `openError` is the error of opening the index, `index`
      answers the request and `elapsed` is the text of the time taken. There
      is no blank-query shortcut: a blank query searches with MatchAll. */
  method Search(queryString: string, limit: int, offset: int, openError: Option<string>,
                index: (Query, int, int) -> Result<IndexResult, string>, elapsed: string)
    returns (r: Result<SearchResponse, string>)
    ensures openError.Some? ==> r == Err("could not open search index: " + openError.value)
    ensures openError.None? ==>
              var answer := index(BuildSearchQuery(queryString), limit, offset);
              && (answer.Err? ==> r == Err("search failed: " + answer.error))
              && (answer.Ok? ==>
                    && r.Ok?
                    && r.value.total == answer.value.total
                    && r.value.maxScore == answer.value.maxScore
                    && r.value.searchTime == elapsed
                    && |r.value.results| == |answer.value.hits|
                    && forall k :: 0 <= k < |answer.value.hits| ==> r.value.results[k] == ItemOf(answer.value.hits[k]))
  {
    if openError.Some? {
      return Err("could not open search index: " + openError.value);
    }
    var answer := index(BuildSearchQuery(queryString), limit, offset);
    if answer.Err? {
      return Err("search failed: " + answer.error);
    }
    var results := MapHits(answer.value.hits);
    return Ok(SearchResponse(results, answer.value.total, answer.value.maxScore, elapsed));
  }
}
