/** The Bleve-backed search store of db/searchdb/bleve.go: batched indexing
    and deletion, search with hit mapping, and the content snippet shown with
    each hit. The index itself, the file system and the MIME table are
    parameters. */
module SearchDB {
  import opened Wrappers
  import opened Text
  import opened QueryTree
  import opened SearchQuery
  import opened Batching
  import opened SearchModels

  /** snippetContext: bytes of context on each side of a match. */
  const SnippetContext: nat := 100

  const Ellipsis: string := "..."

  /** The extensions isTextFile accepts without consulting the MIME table. */
  const TextExtensions: set<string> := {
    ".txt", ".md", ".go", ".js", ".py", ".java", ".cpp", ".c", ".h", ".css",
    ".html", ".htm", ".xml", ".json", ".yaml", ".yml", ".sh", ".bash", ".zsh", ".fish",
    ".sql", ".log", ".conf", ".cfg", ".ini", ".toml", ".rs", ".rb", ".php", ".pl",
    ".swift", ".kt", ".scala", ".clj", ".hs", ".ml", ".elm", ".r", ".m", ".tex",
    ".dockerfile", ".makefile", ".cmake", ".gradle", ".maven", ".sbt", ".lock", ".env",
    ".gitignore", ".gitattributes", ".editorconfig", ".prettierrc", ".eslintrc",
    ".babelrc", ".nvmrc", ".nodeversion"
  }

  /** isTextFile: the lower-cased extension is in the table, or the MIME
      type registered for it (`mimeOf`, standing for mime.TypeByExtension)
      starts with "text/". */
  predicate IsTextFile(path: string, mimeOf: string -> string)
  {
    var ext := ToLower(Ext(path));
    ext in TextExtensions || HasPrefix(mimeOf(ext), "text/")
  }

  /** The table is consulted first, so a listed extension is text whatever
      the MIME table says; and the decision does not depend on the case of
      the path. */
  lemma {:induction false} IsTextFileShape(path: string, mimeOf: string -> string)
    ensures ToLower(Ext(path)) in TextExtensions ==> IsTextFile(path, mimeOf)
    ensures IsTextFile(ToLower(path), mimeOf) == IsTextFile(path, mimeOf)
  {
    LowerExtIgnoresCase(path);
  }

  /** A file that cannot be opened or stat-ed, or one whose bytes are known;
      `readError` is an error other than EOF that ReadAt reports. */
  datatype FileState = Unreadable(error: string) | Readable(data: string, readError: Option<string>)

  /** A term's locations are usable when there is a first one and it is not
      nil. */
  predicate Usable(locations: seq<Option<Location>>)
  {
    |locations| > 0 && locations[0].Some?
  }

  /** The first location of the first term, from `from` on, whose locations
      are usable. */
  function FirstLocationFrom(terms: seq<seq<Option<Location>>>, from: nat): (found: Option<Location>)
    requires from <= |terms|
    decreases |terms| - from
  {
    if from == |terms| then None
    else if Usable(terms[from]) then terms[from][0]
    else FirstLocationFrom(terms, from + 1)
  }

  function FirstLocationOf(terms: seq<seq<Option<Location>>>): Option<Location>
  {
    FirstLocationFrom(terms, 0)
  }

  /** A location is found iff some term's locations are usable, and then it
      is the first one of the first such term. */
  lemma {:induction false} FirstLocationFromIsFirst(terms: seq<seq<Option<Location>>>, from: nat)
    requires from <= |terms|
    ensures FirstLocationFrom(terms, from).None? <==> forall k :: from <= k < |terms| ==> !Usable(terms[k])
    ensures FirstLocationFrom(terms, from).Some? ==>
              exists k :: from <= k < |terms| && Usable(terms[k]) && terms[k][0] == FirstLocationFrom(terms, from)
                          && forall k' :: from <= k' < k ==> !Usable(terms[k'])
    decreases |terms| - from
  {
    if from < |terms| && !Usable(terms[from]) {
      FirstLocationFromIsFirst(terms, from + 1);
      var found := FirstLocationFrom(terms, from);
      if found.Some? {
        var k :| from + 1 <= k < |terms| && Usable(terms[k]) && terms[k][0] == found
                 && forall k' :: from + 1 <= k' < k ==> !Usable(terms[k']);
        assert forall k' :: from <= k' < k ==> !Usable(terms[k']);
      }
    }
  }

  /** The search of readSnippetFromLocation for the first usable location,
      over the terms in the order the map yields them. */
  method FirstLocation(terms: seq<seq<Option<Location>>>) returns (found: Option<Location>)
    ensures found == FirstLocationOf(terms)
  {
    var i := 0;
    while i < |terms|
      invariant 0 <= i <= |terms|
      invariant FirstLocationFrom(terms, 0) == FirstLocationFrom(terms, i)
    {
      if |terms[i]| > 0 && terms[i][0].Some? {
        return terms[i][0];
      }
      i := i + 1;
    }
    return None;
  }

  /** The byte window `[start, end)` read around a match. */
  datatype Window = Window(start: int, end: int)

  /** The window for a match in a file of `fileSize` bytes: none when the
      match starts at or past the end; otherwise the match end clamped to
      the file, `SnippetContext` bytes added on each side and cut to the
      file, and none when that leaves nothing. */
  function SnippetWindow(fileSize: nat, loc: Location): Option<Window>
  {
    if loc.start >= fileSize then None
    else
      var matchEnd := if loc.end > fileSize then fileSize else loc.end;
      var start := if loc.start - SnippetContext > 0 then loc.start - SnippetContext else 0;
      var end := if fileSize < matchEnd + SnippetContext then fileSize else matchEnd + SnippetContext;
      if end - start <= 0 then None else Some(Window(start, end))
  }

  /** A window lies inside the file, never starts after the match, and
      reaches `SnippetContext` bytes before the match start (or the start of
      the file) and after the clamped match end (or the end of the file). A
      match that starts inside the file and does not end before it starts
      always has a window, and it covers the whole clamped match. */
  lemma {:induction false} SnippetWindowBounds(fileSize: nat, loc: Location)
    ensures loc.start >= fileSize ==> SnippetWindow(fileSize, loc).None?
    ensures loc.start < fileSize && loc.start <= loc.end ==> SnippetWindow(fileSize, loc).Some?
    ensures SnippetWindow(fileSize, loc).Some? ==>
              var w := SnippetWindow(fileSize, loc).value;
              var matchEnd := if loc.end > fileSize then fileSize else loc.end;
              && 0 <= w.start < w.end <= fileSize
              && w.start <= loc.start
              && (w.start > 0 <==> loc.start > SnippetContext)
              && (w.start > 0 ==> w.start == loc.start - SnippetContext)
              && (w.end < fileSize <==> matchEnd + SnippetContext < fileSize)
              && (w.end < fileSize ==> w.end == matchEnd + SnippetContext)
              && (loc.start <= loc.end ==> matchEnd <= w.end)
  {
  }

  /** formatSnippet: the text trimmed, with "..." in front when the window
      starts after the beginning of the file and "..." behind when it ends
      before the end of the file. */
  function FormatSnippet(snippet: string, snippetStart: int, snippetEnd: int, fileSize: int): string
  {
    var s := TrimSpace(snippet);
    var s := if snippetStart > 0 then Ellipsis + s else s;
    if snippetEnd < fileSize then s + Ellipsis else s
  }

  /** The formatted snippet is the trimmed text with exactly the markers the
      window calls for: the text is recovered by removing them. */
  lemma {:induction false} FormatSnippetShape(snippet: string, snippetStart: int, snippetEnd: int, fileSize: int)
    ensures var r := FormatSnippet(snippet, snippetStart, snippetEnd, fileSize);
            var lead := if snippetStart > 0 then |Ellipsis| else 0;
            var trail := if snippetEnd < fileSize then |Ellipsis| else 0;
            && |r| == lead + |TrimSpace(snippet)| + trail
            && r[..lead] == Ellipsis[..lead]
            && r[|r| - trail..] == Ellipsis[..trail]
            && r[lead..|r| - trail] == TrimSpace(snippet)
  {
    var r := FormatSnippet(snippet, snippetStart, snippetEnd, fileSize);
    var t := TrimSpace(snippet);
    var lead := if snippetStart > 0 then |Ellipsis| else 0;
    var trail := if snippetEnd < fileSize then |Ellipsis| else 0;
    assert r == Ellipsis[..lead] + t + Ellipsis[..trail];
  }

  /** What readSnippetFromLocation returns for a file and the terms'
      locations. */
  function SnippetRead(file: FileState, terms: seq<seq<Option<Location>>>): Result<string, string>
  {
    match file
    case Unreadable(e) => Err(e)
    case Readable(data, readError) =>
      match FirstLocationOf(terms)
      case None => Ok("")
      case Some(loc) =>
        match SnippetWindow(|data|, loc)
        case None => Ok("")
        case Some(w) =>
          if readError.Some? then Err(readError.value)
          else Ok(FormatSnippet(data[w.start..w.end], w.start, w.end, |data|))
  }

  /** readSnippetFromLocation. */
  method ReadSnippetFromLocation(file: FileState, terms: seq<seq<Option<Location>>>) returns (r: Result<string, string>)
    ensures r == SnippetRead(file, terms)
  {
    if file.Unreadable? {
      return Err(file.error);
    }
    var fileSize := |file.data|;
    var found := FirstLocation(terms);
    if found.None? {
      return Ok("");
    }
    var matchStart, matchEnd := found.value.start, found.value.end;
    if matchStart >= fileSize {
      return Ok("");
    }
    if matchEnd > fileSize {
      matchEnd := fileSize;
    }
    var snippetStart := if matchStart - SnippetContext > 0 then matchStart - SnippetContext else 0;
    var snippetEnd := if fileSize < matchEnd + SnippetContext then fileSize else matchEnd + SnippetContext;
    var bufferSize := snippetEnd - snippetStart;
    if bufferSize <= 0 {
      return Ok("");
    }
    var buffer := file.data[snippetStart..snippetEnd];
    if file.readError.Some? {
      return Err(file.readError.value);
    }
    return Ok(FormatSnippet(buffer, snippetStart, snippetEnd, fileSize));
  }

  /** The snippet extractSnippet attaches to a hit on `path`: "" without
      content locations, for a file that is not text, and when reading
      fails. */
  function SnippetOf(path: string, locations: map<string, seq<seq<Option<Location>>>>,
                     files: string -> FileState, mimeOf: string -> string): string
  {
    if FieldContent !in locations || |locations[FieldContent]| == 0 then ""
    else if !IsTextFile(path, mimeOf) then ""
    else match SnippetRead(files(path), locations[FieldContent])
      case Err(_) => ""
      case Ok(s) => s
  }

  /** A snippet is only ever cut from a text file with content matches and
      a usable location inside it, and is then the formatted window around
      that location. */
  lemma {:induction false} SnippetOfNonEmpty(path: string, locations: map<string, seq<seq<Option<Location>>>>,
                                             files: string -> FileState, mimeOf: string -> string)
    requires SnippetOf(path, locations, files, mimeOf) != ""
    ensures FieldContent in locations && IsTextFile(path, mimeOf)
    ensures files(path).Readable? && files(path).readError.None?
    ensures FirstLocationOf(locations[FieldContent]).Some?
    ensures var data := files(path).data;
            var w := SnippetWindow(|data|, FirstLocationOf(locations[FieldContent]).value);
            && w.Some?
            && SnippetOf(path, locations, files, mimeOf)
               == FormatSnippet(data[w.value.start..w.value.end], w.value.start, w.value.end, |data|)
  {
  }

  /** extractSnippet. */
  method ExtractSnippet(path: string, locations: map<string, seq<seq<Option<Location>>>>,
                        files: string -> FileState, mimeOf: string -> string) returns (snippet: string)
    ensures snippet == SnippetOf(path, locations, files, mimeOf)
  {
    if FieldContent !in locations || |locations[FieldContent]| == 0 {
      return "";
    }
    if !IsTextFile(path, mimeOf) {
      return "";
    }
    var r := ReadSnippetFromLocation(files(path), locations[FieldContent]);
    if r.Err? {
      return "";
    }
    return r.value;
  }

  /** A search result: the mapped hit and its snippet. */
  datatype SearchResult = SearchResult(item: Item, snippet: string)

  datatype Response = Response(results: seq<SearchResult>, total: nat, maxScore: real, searchTime: string)

  const EmptyResponse: Response := Response([], 0, 0.0, "")

  const SearchFailed: string := "search failed: "

  /** Search. `index` answers a request (query, limit, offset); `elapsed` is
      the text of the time the search took. A blank query is answered with
      an empty response and the index is not asked. */
  method Search(queryString: string, limit: int, offset: int,
                index: (Query, int, int) -> Result<IndexResult, string>,
                files: string -> FileState, mimeOf: string -> string, elapsed: string)
    returns (r: Result<Response, string>)
    ensures IsBlank(queryString) ==> r == Ok(EmptyResponse)
    ensures !IsBlank(queryString) ==>
              var answer := index(SearchQueryFor(queryString), limit, offset);
              && (answer.Err? ==> r == Err(SearchFailed + answer.error))
              && (answer.Ok? ==>
                    var hits := answer.value.hits;
                    && r.Ok?
                    && r.value.total == answer.value.total
                    && r.value.maxScore == answer.value.maxScore
                    && r.value.searchTime == elapsed
                    && |r.value.results| == |hits|
                    && forall k :: 0 <= k < |hits| ==> r.value.results[k] == ResultOf(hits[k], files, mimeOf))
  {
    TrimSpaceEmptyIffBlank(queryString);
    if |TrimSpace(queryString)| == 0 {
      return Ok(EmptyResponse);
    }
    var searchQuery := BuildSearchQuery(queryString);
    var answer := index(searchQuery, limit, offset);
    if answer.Err? {
      return Err(SearchFailed + answer.error);
    }
    var results := MapSearchHits(answer.value.hits, files, mimeOf);
    return Ok(Response(results, answer.value.total, answer.value.maxScore, elapsed));
  }

  /** The result for a hit: the hit's fields and the snippet of the file at
      its path. */
  function ResultOf(hit: Hit, files: string -> FileState, mimeOf: string -> string): SearchResult
  {
    SearchResult(ItemOf(hit), SnippetOf(ItemOf(hit).path, hit.locations, files, mimeOf))
  }

  /** The loop of Search over the hits: one result per hit, in hit order. */
  method MapSearchHits(hits: seq<Hit>, files: string -> FileState, mimeOf: string -> string)
    returns (items: seq<SearchResult>)
    ensures |items| == |hits|
    ensures forall k :: 0 <= k < |hits| ==> items[k] == ResultOf(hits[k], files, mimeOf)
  {
    var results := new SearchResult[|hits|];
    var i := 0;
    while i < |hits|
      invariant 0 <= i <= |hits|
      invariant forall k :: 0 <= k < i ==> results[k] == ResultOf(hits[k], files, mimeOf)
    {
      var item := ItemOf(hits[i]);
      var snippet := ExtractSnippet(item.path, hits[i].locations, files, mimeOf);
      results[i] := SearchResult(item, snippet);
      i := i + 1;
    }
    items := results[..];
  }

  /** BuildIndex: the documents submitted in batches of `BatchSize`; adding
      document `j` fails iff `j` is in `addFails`, submitting batch `k`
      fails iff `k` is in `flushFails`, and the first failure is returned. */
  method BuildIndex(documents: seq<Document>, addFails: set<nat>, flushFails: set<nat>)
    returns (flushed: seq<seq<Document>>, r: Outcome<BatchError>)
    ensures |flushed| <= |Chunks(documents)| && flushed == Chunks(documents)[..|flushed|]
    ensures r.Pass? <==> (forall j :: 0 <= j < |documents| ==> j !in addFails)
                         && (forall k :: 0 <= k < |Chunks(documents)| ==> k !in flushFails)
    ensures r.Pass? ==> flushed == Chunks(documents)
    ensures r.Fail? ==> FirstFailure(documents, addFails, flushFails, |flushed|, r.error)
  {
    flushed, r := SubmitInBatches(documents, addFails, flushFails);
  }

  /** DeleteDocuments: the ids submitted for deletion in batches of
      `BatchSize`. Marking an id for deletion cannot fail, so the only
      failure is a submission, and it ends the run. */
  method DeleteDocuments(documentIDs: seq<string>, flushFails: set<nat>)
    returns (flushed: seq<seq<string>>, r: Outcome<BatchError>)
    ensures |flushed| <= |Chunks(documentIDs)| && flushed == Chunks(documentIDs)[..|flushed|]
    ensures r.Pass? <==> forall k :: 0 <= k < |Chunks(documentIDs)| ==> k !in flushFails
    ensures r.Pass? ==> flushed == Chunks(documentIDs)
    ensures r.Fail? ==> r.error.FlushFailed? && FirstFailure(documentIDs, {}, flushFails, |flushed|, r.error)
  {
    flushed, r := SubmitInBatches(documentIDs, {}, flushFails);
  }
}
