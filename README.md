# wheresthat, modelled in Dafny

wheresthat is a local file-search service. A Go backend walks a folder and
picks out the files that are new or changed since they were last indexed. It
reads their text and hands them to a Bleve full-text index. It keeps each
file's last indexing time and each indexing request's progress in a bbolt
key-value store. An HTTP API starts an indexing request (`POST /index`),
reports its progress (`GET /index/:request_id`) and answers searches
(`GET /search`). A small JavaScript page drives the API.

This project models the sequential logic of that system. The file system, the
Bleve index, the MIME table, the clock and the HTTP transport become
parameters, given as the answers they would give:

- the client's state machine: the recent-paths list, the one busy flag shared
  by indexing and search, and the page-turn guards (`UiClient`);
- the HTTP handlers' decision order, the request defaults and the page offset
  (`HandlersIndex`, `HandlersSearch`), with the reply envelope and the status
  codes of section 15 of RFC 9110 (`Http`);
- the request validator: the custom path and query rules, the field names
  taken from json tags, and the message chosen for the first failed rule
  (`Validation`);
- the indexing service (`IndexService`): the progress statuses it writes to
  the requests bucket (0, 10, 20, progress values, -1, 100), the file
  metadata it records, the split of the files among the workers and the
  batches each worker submits. Its arithmetic is in `IndexPlan`;
- file discovery, content extraction and tokenisation (`FileDiscovery`,
  `ExtractContent`, `Tokenize`);
- the search store: quoted-phrase parsing, the query tree, batched indexing
  and deletion, and hit mapping with content snippets. This covers both the
  current store (`SearchQuery`, `QuotedPhrases`, `SearchDB`) and the older
  one (`LegacyDB`), with the query tree in `QueryTree`, the shared batching
  loop in `Batching` and the records in `SearchModels`;
- the key-value store and its typed errors (`KvStore`, `KvTypes`).

`Text` (Go's `strings.TrimSpace`, `strings.Fields`, `strings.ToLower`,
`filepath.Ext`, JavaScript's `trim` and `join`), `Decimal`
(`strconv.Itoa`/`Atoi`), `Wrappers` and `Seqs` are support modules.

Objects whose fields the code updates in place are classes:
- the client (`UiClient.Client`);
- the validator (`Validation.Validator`);
- the search request that `setDefaults` changes (`HandlersSearch.SearchRequest`);
- the indexing service with its two buckets (`IndexService.Service`);
- the bbolt store (`KvStore.BoltStore`);
- the query builders (`QueryTree.Disjunction`, `QueryTree.Conjunction`).

Loops in the source are methods with loop invariants. Each is proved against
a function of its inputs, and the properties the code promises are proved as
lemmas about those functions.

A Go string is modelled as a sequence of bytes, one `char` per byte.
Whitespace means the six ASCII whitespace characters, and lower-casing works
on ASCII letters.

## Model

| member | source | states |
|---|---|---|
| UiClient.AddedToRecentShape | ui/script.js:112-121 | A path already listed leaves the list unchanged; it is not moved to the front. A new path goes to the front with the old entries behind it in order, and the last one is dropped once there would be more than five. A list of at most five distinct paths stays one. |
| UiClient.Client.constructor | ui/script.js:5-9 | The initial state: page 1 of 1, no query, not busy, recent paths from storage or empty. |
| UiClient.Client.AddToRecentPaths | ui/script.js:112-121 | The list becomes `AddedToRecent` of the old list. Storage is written only for a new path, and then holds the new list. |
| UiClient.Client.UpdatePagination | ui/script.js:296-300 | Previous is disabled exactly on the first page, next exactly on the last, and the page line shows both numbers. |
| UiClient.Client.BeginIndex | ui/script.js:124-136 | A path that trims to empty shows an error and issues no request, whatever the busy flag says. A busy client does nothing. Otherwise the client turns busy and requests the trimmed path. |
| UiClient.Client.CompleteIndex | ui/script.js:138-162 | Only an ok response records the path in recent paths. A failed response shows its errors joined by ", ", or "Failed to index files". An exception shows its message. The client is never busy afterwards. |
| UiClient.Client.BeginSearch | ui/script.js:166-181 | An empty trimmed query issues no request. A busy client does nothing, so one flag guards index and search. Otherwise the client asks for the requested page with ten results. |
| UiClient.Client.DisplayResults | ui/script.js:201-222 | Total pages and current page come from the page details, 1 when either is missing or 0, and the controls match them. |
| UiClient.Client.CompleteSearch | ui/script.js:180-198 | An ok response sets the current query and takes the pages from the response. A failed response or an exception keeps query, page and total and shows the error. The client is never busy afterwards. |
| UiClient.Client.HandlePrevPage | ui/script.js:303-307 | A search is issued only past the first page and only for the page before. So no search happens while the previous button is disabled. |
| UiClient.Client.HandleNextPage | ui/script.js:309-313 | A search is issued only before the last page and only for the page after. So no search happens while the next button is disabled. |
| UiClient.OrDefault | ui/script.js:206-207 | `x \|\| 1` on a number: a value other than 0 is kept, and a missing value or 0 gives the fallback, so the result is 0 only for a fallback of 0. |
| UiClient.ErrorText | ui/script.js:155 | The line starts with "Error: ". A body without errors shows the fallback, and a single error is shown as it is. |
| HandlersIndex.ExcludePathsErrorFirst | api/handlers/index.go:77-90 | No error exactly when every exclude path differs from the index path and starts with it, so always for an empty list. Otherwise the error is the one for the first offending entry. |
| HandlersIndex.ResponseStatusFromServiceStatus | api/handlers/index.go:124-135 | 200 exactly for 100, 500 exactly for -1, 202 for every other status. |
| HandlersIndex.CreateIndexOrder | api/handlers/index.go:40-75 | The checks run in order. A body that does not bind gives 422. An empty or invalid path gives 406 with its message, and so does a bad exclude path. A busy worker gives 409. Otherwise the reply is 202 with the new request id. |
| HandlersIndex.CreateIndexExamples | api/handlers/index_test.go:17-35 | No body gives 422. An empty path gives 406 with the missing-field message for `path`. A relative path gives 406 with "invalid path". |
| HandlersIndex.GetStatusOrder | api/handlers/index.go:92-122 | A URL that does not bind gives 422. An empty id or one that is not a UUID gives 406. An id with no readable status gives 404. Otherwise the reply carries the stored status and the HTTP status it maps to. A status written by the service is reported unchanged. |
| HandlersIndex.HandleCreateIndex | api/handlers/index.go:40-75 | The reply is that decision. The service's state changes exactly when the request reaches `Build`. |
| HandlersIndex.HandleGetIndexStatus | api/handlers/index.go:92-122 | The reply is that decision, read from the service's requests bucket. The bucket is not changed. |
| HandlersSearch.SearchRequest.constructor | api/handlers/search.go:15-19 | The request holds the bound query, per_page and page. |
| HandlersSearch.SearchRequest.SetDefaults | api/handlers/search.go:21-29 | per_page 0 becomes 20 and page 0 becomes 1. Every other value, and the query, is kept. |
| HandlersSearch.SearchRequestCheckShape | api/handlers/search.go:15-19 | The validator passes a request exactly when its query has 1 to 1000 characters and is not blank, per_page is in 1..100 and page is at least 1. Otherwise the message names the first field out of bounds, in the order query, per_page, page. |
| HandlersSearch.WrapInt64 | api/handlers/search.go:61 | The value wrapped into the 64-bit signed range; values already in range are unchanged. |
| HandlersSearch.OffsetSkipsEarlierPages | api/handlers/search.go:60-61 | Within the bounds, the offset is the number of results on the earlier pages, and is not negative, as long as that number fits in 64 bits. |
| HandlersSearch.OffsetWrapsForHugePages | api/handlers/search.go:61 | Page has no upper bound, so page 92233720368547760 with per_page 100 gives a negative offset. |
| HandlersSearch.SearchOrder | api/handlers/search.go:42-80 | A query string that does not bind gives 422. A request out of bounds after the defaults gives 406. A failing search gives 500 with its error. Otherwise the reply is 200 with the service's results unchanged, its total, limit per_page and the page's offset. |
| HandlersSearch.SearchEmptyQueryRefused | api/handlers/search_test.go:19-28 | No query, or an empty one, gives 406 with the missing-field message. |
| HandlersSearch.SearchLongQueryRefused | api/handlers/search_test.go:29-33 | A query of 1001 characters gives 406 with the range message. |
| HandlersSearch.SearchNegativeNumbersRefused | api/handlers/search_test.go:34-43 | per_page -1 or page -1 gives 406 with the range message naming that field. |
| HandlersSearch.SearchDefaultsApplied | api/handlers/search.go:51-61 | A request with only a query searches for 20 results from offset 0. |
| HandlersSearch.HandleSearch | api/handlers/search.go:42-80 | The reply is that decision. The search runs only for a request that passes validation, and with limit per_page and the page's offset. |
| Validation.MessageShape | validation/validation.go:37-61 | A message is returned exactly when the check failed, and only the first failed rule decides it. A custom tag gives its fixed error, "required" the missing-field message, "min" and "max" the range message, and any other tag, or an error of another kind, the library's own text. |
| Validation.Validator.constructor | validation/validation.go:27-28 | A validator with an empty table and nothing registered. |
| Validation.Validator.GetTagValidationDetails | validation/validation.go:62-70 | Returns the table of the two custom tags. It is filled on the first call and the same on every later call. |
| Validation.Validator.RegisterCustomValidatorsForTags | validation/validation.go:72-83 | Without an error, every custom tag is registered. With one, the error is the library's answer for the first tag it refused, and only the tags before it are registered. |
| Validation.Validator.Validate | validation/validation.go:37-61 | The message is `Message` of the check over the custom-tag table. |
| Validation.New | validation/validation.go:27-35 | A validator exists exactly when no registration failed, and then has both custom tags registered. |
| Validation.CommaAt | validation/validation.go:86 | The first comma of the tag, or its end: no comma lies before it. |
| Validation.UseJSONFieldNames | validation/validation.go:85-91 | The name is the tag's text up to the first comma, or "" exactly when that text is "" or "-". It holds no comma and is a prefix of the tag. |
| Validation.ReportedNameOfPlainTag | validation/validation.go:85-91 | A tag without a comma that is neither "" nor "-" is the name reported. |
| Validation.IsValidPath | validation/validation.go:93-119 | Valid exactly when the path is empty, or starts with '/', holds no NUL byte and exists. |
| Validation.IsValidQuery | validation/validation.go:121-132 | Valid exactly when the query is not blank. |
| IndexService.Service.constructor | services/index/index.go:49-60 | A service with empty buckets and no writes. |
| IndexService.Service.SetRequestStatus | services/index/index.go:317-321 | The request's entry holds the status as decimal text; nothing else changes. |
| IndexService.Service.GetStatus | services/index/index.go:77-89 | A missing request is "request not found", text that is not a decimal integer is "invalid status value", and otherwise the stored value is returned. |
| IndexService.Service.Build | services/index/index.go:62-74 | The request is marked 0 either way. An idle worker accepts it; a busy one gives "indexing already in progress". |
| IndexService.Service.SetFileMetadata | services/index/index.go:263-281 | An empty path is refused and changes nothing. Otherwise exactly that file's metadata is set. |
| IndexService.Service.RemoveDeletedFiles | services/index/index.go:139-156 | No files means no call and no change. An index-deletion error is returned and the metadata is kept. Otherwise the metadata of every listed file is removed. |
| IndexService.Service.GetDeletedFiles | services/index/index.go:299-315 | A listing error is returned. Otherwise the result is the stored paths whose files no longer exist, in key order. |
| IndexService.MissingMembers | services/index/index.go:306-312 | A stored path is reported deleted exactly when its file does not exist. |
| IndexService.Service.RecordBatch | services/index/index.go:229-236 | Every non-empty path of the batch gets the index time and every other entry is kept. The count is the number of such paths. |
| IndexService.Service.RecordBatchAndReport | services/index/index.go:227-244 | The batch is recorded, and the progress is written when the new count is a multiple of 1000. |
| IndexService.Service.LoopPass | services/index/index.go:226-246 | One receive of the metadata loop keeps the loop invariant. |
| IndexService.Service.UpdateMetadata | services/index/index.go:222-249 | The metadata is every batch recorded in turn. The status writes are the progress writes of each batch whose count is a multiple of 1000, in order. |
| IndexService.ProgressWritesBounded | services/index/index.go:238-241 | Every progress write is for the request and lies in [20, 100]. |
| IndexService.RecordedFilesShape | services/index/index.go:229-236 | Recording marks every non-empty path of the files with the index time and leaves every other entry as it was. |
| IndexService.RecordedBatchesFlatten | services/index/index.go:226-246 | Recording batch after batch is recording their concatenation. |
| IndexService.AppliedLast | services/index/index.go:317-321 | After writes that all go to one request, the bucket holds the last status written for it, and no other entry changes. |
| IndexService.ExtractedMembers | services/index/index.go:348-356 | The survivors of extraction are exactly the batch files that extract, in order. |
| IndexService.ExtractedPaired | services/index/index.go:348-356 | Each survivor is paired with its own document. |
| IndexService.ExtractedAll | services/index/index.go:348-356 | When every file extracts, the whole batch is kept in order. |
| IndexService.BatchResultShape | services/index/index.go:344-367 | A batch the indexer refuses yields nothing; otherwise it yields the survivors of extraction. |
| IndexService.SingleBatch | services/index/index.go:344-367 | Returns that result, giving the indexer the survivors' documents in one call. |
| IndexService.AsWrittenInBounds | services/index/index.go:327-328 | Every batch range of the loop as written lies within the portion. |
| IndexService.ForFilesPortion | services/index/index.go:323-342 | Hands on the results of the as-written batches of the portion, in order. |
| IndexService.Partition | services/index/index.go:168-197 | The portions are those of `PartitionOf`: contiguous, disjoint and covering every file. |
| IndexService.HandOutPortions | services/index/index.go:183-197 | Worker i starts at i times the portion size, the last worker runs to the end, and the loop stops at a worker that would start past the end. |
| IndexService.ProcessPortions | services/index/index.go:183-197 | Each worker's batch results, in worker order. |
| IndexService.BuildWritesShape | services/index/index.go:158-220 | The last write is always 100, even after -1 on cancellation. -1 appears only when the build was cancelled. Every other write is a progress value in [20, 100] for the request. |
| IndexService.Service.DoBuildIndex | services/index/index.go:158-220 | With no files, exactly 100 is written. Otherwise the metadata is the build recorded, and the writes are the progress writes, then -1 if cancelled, then 100. |
| IndexService.Service.FinishBuild | services/index/index.go:199-219 | The part after the workers: metadata recorded, progress written, then -1 if cancelled, and 100 last. |
| IndexService.Service.BuildIndex | services/index/index.go:107-137 | When the walk callback panics on an entry without file info, nothing is written and the files bucket is unchanged, because the process ends. A discovery failure writes -1 and stops, and the file metadata is unchanged. Otherwise 10 is written. Then a failure to list or remove deleted files writes -1 and stops. Otherwise 20 is written and the build runs on the modified files. The requests bucket ends as those same writes leave it. |
| IndexService.Service.CleanAndBuild | services/index/index.go:116-136 | The part after discovery. The status writes are those of `CleanWrites`, and the requests bucket is left as they leave it. The metadata is that of `CleanRecorded`. |
| IndexService.AppliedAppend | services/index/index.go:317-321 | Applying writes in two parts is applying them at once. |
| IndexService.AppliedSnoc | services/index/index.go:211-218 | The bucket after the progress writes, an optional -1 and the final 100 ends with 100 for the request. |
| IndexPlan.ProgressPercentageEdges | services/index/index.go:369-376 | Nothing done or nothing to do gives `initial`; all done gives `final`. |
| IndexPlan.ProgressPercentageBounds | services/index/index.go:378-383 | Part way through, with initial <= final, the value lies in [initial, final]. |
| IndexPlan.ProgressPercentageRange | services/index/index.go:369-384 | For counts that are not negative and initial <= final, every value lies in [initial, final]. |
| IndexPlan.ProgressPercentageMonotone | services/index/index.go:369-384 | More work done never gives a smaller percentage. |
| IndexPlan.InterpolationBetween | services/index/index.go:379-382 | The interpolation at a fraction in [0, 1] lies between initial and final. |
| IndexPlan.InterpolationMonotone | services/index/index.go:379-382 | The interpolation grows with the work done. |
| IndexPlan.TruncateBetween | services/index/index.go:382 | Truncating a value that lies between two integers gives a result between them. |
| IndexPlan.TruncateMonotone | services/index/index.go:382 | Truncation toward zero keeps order. |
| IndexPlan.TilesCover | services/index/index.go:183-197 | Ranges laid end to end from lo to hi hold each index exactly once, in increasing order. |
| IndexPlan.TilesDisjoint | services/index/index.go:183-197 | Such ranges do not overlap. |
| IndexPlan.PortionStartBelow | services/index/index.go:183-190 | Each worker starts before n, and every worker but the last also ends before n. |
| IndexPlan.WorkersTimesPortion | services/index/index.go:168-181 | The workers' portions together fit in n. |
| IndexPlan.PartitionFromTiles | services/index/index.go:183-197 | One portion per remaining worker, each of the portion size except the last, laid end to end up to n. |
| IndexPlan.PartitionCovers | services/index/index.go:168-197 | There are min(50, n) portions, all of size max(1, n / workers) except the last, which runs to n. They are contiguous, disjoint and cover [0, n). |
| IndexPlan.AsWrittenRangesFromTiles | services/index/index.go:327-341 | The batches of the loop as written, from any start, are laid end to end, at most 100 files each. |
| IndexPlan.AsWrittenRangesCover | services/index/index.go:327-341 | The batches of a non-empty portion cover [0, AsWrittenEnd(n)), at most 100 files each. |
| IndexPlan.AsWrittenEndMissesTail | services/index/index.go:327 | The batches reach the end of the portion exactly when it has at most 100 files or a multiple of 100. Otherwise its last n % 100 files are never submitted. |
| IndexPlan.AsWrittenSkipsFile100Of101 | services/index/index.go:327 | A portion of 101 files gets the one batch [0, 100), so file 100 is never submitted. |
| IndexPlan.FiftyPortionsOf101 | services/index/index.go:168-181 | 5050 files give 50 portions of 101 files, so each worker leaves its last file out. |
| IndexPlan.TilesLastEnd | services/index/index.go:327-341 | The last of the tiling batches ends at hi. |
| IndexPlan.TilesStarts | services/index/index.go:327-341 | Tiling batches whose widths, all but the last, are w start at multiples of w. |
| IndexPlan.CorrectedRangesFromTiles | services/index/index.go:327-341 | The batches of the intended loop, from any start, are laid end to end to n. |
| IndexPlan.CorrectedRangesCover | services/index/index.go:327-341 | The intended batches cover the whole portion, in order, at most 100 files each. |
| FileDiscovery.ShouldFileBeIndexedCases | services/index/file_discovery.go:70-100 | Every lookup error (not-found, invalid-key or any other) means the file is indexed. A known file is re-indexed exactly when it was modified strictly after it was last indexed. |
| FileDiscovery.IsTextFileShape | services/index/file_discovery.go:102-114 | The decision ignores the case of the path, and a path without an extension is never text. |
| FileDiscovery.IsInExcludedPathIsMembership | services/index/file_discovery.go:117-128 | Exact membership: false for an empty set, and a folder above or below a listed one is not excluded by it. |
| FileDiscovery.Decide | services/index/file_discovery.go:28-48 | Only an entry with file info is considered, skipped or ignored. The callback crashes exactly on an entry without file info whose error is a permission error. |
| FileDiscovery.DecideShape | services/index/file_discovery.go:28-48 | Directories and dot-files never produce an entry. The root is never skipped for its name. A non-root directory is skipped with its subtree exactly when it is hidden or excluded, unless the walk failed on it. An error other than a permission error aborts with its message. An entry without file info crashes exactly when its error is a permission error. |
| FileDiscovery.WalkFromProducesConsidered | services/index/file_discovery.go:35-62 | Every file produced comes from a considered entry whose metadata says it needs indexing. Its path, name, size and time are copied and `IsText` is set from its path. |
| FileDiscovery.SkippedSubtreeProducesNothing | services/index/file_discovery.go:35-48 | Nothing below a skipped directory is produced. |
| FileDiscovery.DiscoverModifiedFiles | services/index/file_discovery.go:21-68 | The exclude set is the set of listed folders. The files, the error and whether the callback panicked are those of the recursive walk `WalkFrom` as written (an entry without file info and with a permission error crashes it), which `WalkCompleteInOrder` characterises. |
| FileDiscovery.WalkCompleteInOrder | services/index/file_discovery.go:21-68 | The walk stops at the first reached entry that carries an error other than a permission error, where it ends with that error. As written it also stops, crashed, at the first reached entry without file info and with a permission error. It ends with neither an error nor a crash exactly when no reached entry stops it. The files are those of the reached, considered entries needing indexing, in entry order, before the stop (before the end when there is none). It never crashes when such entries are passed over. "Reached" means not below a directory being passed over. |
| FileDiscovery.WalkAtMatchesEntries | services/index/file_discovery.go:35-62 | From any entry on, the walk adds the produced files up to the first stop, after those produced before that entry. It ends with the stop's error when the stop is an abort, crashed when it is a crash, and with neither when there is no stop. |
| FileDiscovery.WalkAtStep | services/index/file_discovery.go:35-62 | An aborting entry ends the walk with its own error. As written, a crashing entry ends it crashed with no files. Any other entry leaves the ending unchanged and moves one entry's file, if it produces one, from the walk to the files already produced. |
| FileDiscovery.AsWrittenCrashesOnUnreadable | services/index/file_discovery.go:28-36 | A file that cannot be stat'ed for lack of permission, first in the walk, crashes the walk as written with no files. With the entry passed over, the walk goes on and returns the next file when it needs indexing. |
| FileDiscovery.IntendedWalkNeverCrashes | services/index/file_discovery.go:21-68 | With an entry without file info passed over, the walk never crashes. It ends with an error exactly when a reached entry carries an error other than a permission error, and otherwise it returns every reached file needing indexing, in walk order. |
| Tokenize.TokensShape | services/index/tokenize.go:8-40 | Each token is a kept, lower-case, maximal run of word characters of the lower-cased text, at its own byte offset, with its line and column. Every kept run yields a token, and the offsets strictly increase. |
| Tokenize.TokensFromSound | services/index/tokenize.go:15-36 | Every token is the token of a match at its position. |
| Tokenize.TokensFromComplete | services/index/tokenize.go:15-36 | Every match whose word is kept (two bytes or more and no stop word) yields a token. |
| Tokenize.TokensFromIncreasing | services/index/tokenize.go:18-36 | Token positions strictly increase. |
| Tokenize.TokensFromStep | services/index/tokenize.go:15-36 | Scanning one match either emits its token or drops it, then continues after it. |
| Tokenize.PrependIncreasing | services/index/tokenize.go:18-36 | A token before every token of an increasing list keeps it increasing. |
| Tokenize.RunEnd | services/index/tokenize.go:15 | A run of word characters ends at a non-word character or at the end of the text. |
| Tokenize.Tokenize | services/index/tokenize.go:8-40 | Returns `Tokens(text)`. |
| Tokenize.GetLineColumn | services/index/tokenize.go:54-71 | The line is 1 plus the newlines before the position. The column is 1 plus the characters since the last of them. This gives (1, 1) at position 0. |
| Tokenize.LineColumnSteps | services/index/tokenize.go:54-71 | Line and column start at 1. A newline moves to column 1 of the next line; any other character moves one column on. |
| ExtractContent.ReadResultShape | services/index/extract_content.go:45-77 | The content is the input's first min(len, 5 MiB) bytes, in order. A reader that ends cleanly never fails. A reader with more bytes than the cap never shows its error. |
| ExtractContent.ReadTextContent | services/index/extract_content.go:45-77 | Returns `ReadResult` of the reader, whatever the size hint. |
| ExtractContent.ExtractResultShape | services/index/extract_content.go:20-44 | Id and path are the file's path, and name, size and time are copied. A non-text file succeeds with empty content without being opened. A text file fails exactly when opening or reading fails. |
| ExtractContent.Extract | services/index/extract_content.go:20-44 | Returns `ExtractResult` of the file. |
| QuotedPhrases.SplitDecomposes | db/searchdb/bleve.go:192-204 | The matches cut the query exactly: the gaps and phrases, with a quote around each phrase, make up the query. The phrases and every gap but the last hold no quote, and the last gap holds at most one. |
| QuotedPhrases.SplitCharacterized | db/searchdb/bleve.go:192-204 | The split is the only decomposition of the query into left-to-right quote pairs. |
| QuotedPhrases.SplitNoQuote | db/searchdb/bleve.go:192-200 | No phrase holds a quote. |
| QuotedPhrases.KeptPhrasesShape | db/searchdb/bleve.go:196-200 | Every kept phrase is non-empty, trimmed and quote-free, and there are no more of them than matches. |
| QuotedPhrases.ParseQuotedQuery | db/searchdb/bleve.go:190-207 | The phrases are the trimmed non-blank contents of the matches, in order. The rest is the query with each match replaced by one space, then trimmed. |
| QuotedPhrases.ParsedShape | db/searchdb/bleve.go:190-207 | The phrases are non-empty, trimmed and quote-free, and the rest is trimmed. |
| QuotedPhrases.NextQuote | db/searchdb/bleve.go:192 | The first quote at or after the start, or the end of the text. |
| QuotedPhrases.SplitFrom | db/searchdb/bleve.go:192-204 | There is one more gap than there are phrases. |
| QueryTree.Disjunction.constructor | db/searchdb/bleve.go:217 | An empty disjunction. |
| QueryTree.Disjunction.AddQuery | db/searchdb/bleve.go:239-246 | The clause is appended, after the earlier ones. |
| QueryTree.Disjunction.ToQuery | db/searchdb/bleve.go:209-237 | The disjunction of the clauses added, in order. |
| QueryTree.Conjunction.constructor | db/searchdb/bleve.go:262 | An empty conjunction. |
| QueryTree.Conjunction.AddQuery | db/searchdb/bleve.go:262-272 | The clause is appended, after the earlier ones. |
| QueryTree.Conjunction.ToQuery | db/searchdb/bleve.go:262-275 | The conjunction of the clauses added, in order. |
| SearchQuery.BlankQueryMatchesAll | db/searchdb/bleve.go:209-216 | A query builds MatchAll exactly when it is blank after lower-casing and trimming. |
| SearchQuery.QuotedClausesUseWholeQuery | db/searchdb/bleve.go:239-246 | Each kept phrase adds one content-phrase clause, built from the whole lower-cased query, not from the phrase. |
| SearchQuery.QuotedClausesThenRest | db/searchdb/bleve.go:220-236 | The quoted-phrase clauses come first, one per phrase, and the rest follows. |
| SearchQuery.NonBlankQueryShape | db/searchdb/bleve.go:218-236 | The quoted-phrase clauses on the whole query come first, then the clauses for the remaining terms. With no phrases and no remaining terms, the whole query goes to the regular-phrase builder. |
| SearchQuery.NonBlankShape | db/searchdb/bleve.go:218-236 | The non-blank query has exactly that shape. |
| SearchQuery.SingleTermShape | db/searchdb/bleve.go:278-307 | Every clause for a single term searches that term. There are three matches, on content, name and path, each with its field's boost. Then come prefix clauses, on name and content, with the partial-match boost. They are present exactly when the term is longer than two bytes. |
| SearchQuery.MultiTermShape | db/searchdb/bleve.go:248-276 | Two or more terms give a content phrase of the whole text, then a conjunction of one disjunction per term, in order. No terms give nothing. |
| SearchQuery.TermDisjunctions | db/searchdb/bleve.go:263-271 | One disjunction per term, each holding that term's single-term clauses. |
| SearchQuery.BuildSearchSubQueryForSingleTerm | db/searchdb/bleve.go:278-307 | Appends the single-term clauses of the term. |
| SearchQuery.BuildSearchSubQueryForQuotedPhrase | db/searchdb/bleve.go:239-246 | Appends one content-phrase clause on the text it is given. |
| SearchQuery.BuildSearchSubQueryForRegularPhrase | db/searchdb/bleve.go:248-276 | Appends the regular-phrase clauses of the text. |
| SearchQuery.BuildSearchQuery | db/searchdb/bleve.go:209-237 | Returns `SearchQueryFor` of the query. |
| SearchDB.IsTextFileShape | db/searchdb/bleve.go:373-399 | The table is consulted first, so a listed extension is text whatever the MIME table says. The decision ignores the case of the path. |
| SearchDB.FirstLocationFromIsFirst | db/searchdb/bleve.go:418-428 | A location is found exactly when some term's locations are usable, and it is the first location of the first such term. |
| SearchDB.FirstLocation | db/searchdb/bleve.go:418-428 | Returns that location. |
| SearchDB.SnippetWindowBounds | db/searchdb/bleve.go:430-446 | The window lies inside the file and never starts after the match. It reaches 100 bytes before the match start and after the clamped match end, or the file's edges. A match inside the file always has a window. |
| SearchDB.FormatSnippetShape | db/searchdb/bleve.go:466-476 | The snippet is the trimmed text with "..." in front exactly when the window starts after 0, and behind exactly when it ends before the file size. Removing the markers gives the text back. |
| SearchDB.ReadSnippetFromLocation | db/searchdb/bleve.go:401-464 | Returns `SnippetRead` of the file and the locations. |
| SearchDB.SnippetOfNonEmpty | db/searchdb/bleve.go:350-371 | A non-empty snippet comes only from a text file with content matches and a usable location inside it. It is the formatted window around that location. |
| SearchDB.ExtractSnippet | db/searchdb/bleve.go:350-371 | Returns `SnippetOf` of the hit. This is "" without content locations, for a file that is not text, and when reading fails. |
| SearchDB.Search | db/searchdb/bleve.go:129-188 | A blank query gets an empty response and the index is not asked. Otherwise an index error is returned, or the response holds one result per hit, in hit order, with the total. |
| SearchDB.MapSearchHits | db/searchdb/bleve.go:157-181 | One result per hit, in hit order, each with the hit's fields and its snippet. |
| SearchDB.BuildIndex | db/searchdb/bleve.go:64-97 | Every document goes in exactly once and in order, in batches of 100 and a last non-empty remainder. The run fails exactly when some add or submission fails. The failure returned is the first in run order (`FirstFailure`): no earlier add and no earlier submission failed. |
| SearchDB.DeleteDocuments | db/searchdb/bleve.go:309-333 | The same for ids, where only a submission can fail. The failure returned is that of the first failing submission, the one after the batches submitted. |
| Batching.SubmitInBatches | db/searchdb/bleve.go:70-94 | The batches submitted are a prefix of the chunks of 100, and all of them on success. The run fails exactly when some add or submission fails. It stops at the first failure in run order, which is reported (`FirstFailure`). No earlier add and no earlier submission failed, and a failing add lies in the batch after those submitted. |
| Batching.ChunksFlatten | db/searchdb/bleve.go:70-94 | The chunks hold every item once and in order. |
| Batching.ChunksSizes | db/searchdb/bleve.go:70-94 | Every chunk is non-empty and at most 100 long; all but the last are exactly 100. |
| Batching.ChunksAppend | db/searchdb/bleve.go:70-94 | Cutting a whole number of chunks first and the rest afterwards gives the same chunks. |
| Batching.CloseBatch | db/searchdb/bleve.go:78-85 | A full open batch is the next chunk of both the items read and the unread suffix. |
| LegacyDB.BuildSearchQueryShape | db/bleve.go:171-222 | A blank query gives MatchAll and no other query does. Otherwise the disjunction starts with content, name and path matches and a content phrase on the trimmed lower-cased query. It adds prefix clauses on name and content exactly when that query is longer than two bytes, so it has 4 or 6 clauses. |
| LegacyDB.BuildIndex | db/bleve.go:34-82 | An open error is returned first, and only an open error is reported as one. Otherwise the documents go in once each, in order, in batches as in the newer store. The batch failure returned is the first in run order (`FirstFailure`). |
| LegacyDB.Search | db/bleve.go:114-169 | An open or search error is returned. Otherwise there is one result per hit, in hit order. |
| SearchModels.TruncateToInt | db/searchdb/bleve.go:165-167 | Truncation toward zero: for x >= 0 the result is at most x and within 1 below it; for x < 0 it is at least x and within 1 above it. |
| SearchModels.ItemOfStoredFields | db/bleve.go:136-157 | A hit whose fields have their expected types maps to exactly those values. |
| SearchModels.ItemOfUntypedFields | db/bleve.go:136-157 | A field that is missing or of another type keeps its zero value. Id and score are always copied. |
| SearchModels.MapHits | db/bleve.go:136-157 | One item per hit, in hit order. |
| KvStore.BoltStore.constructor | db/kvdb/bbolt.go:24-61 | An open store with an empty default bucket. |
| KvStore.BoltStore.Set | db/kvdb/bbolt.go:63-87 | An empty key is an InvalidKeyError "key cannot be empty" and changes nothing. A missing bucket is "bucket not found". A refused `Put` gives "failed to set key <key>: <error>" and changes nothing. Otherwise exactly that key takes the value. |
| KvStore.BoltStore.Get | db/kvdb/bbolt.go:89-126 | An empty key is refused. A missing bucket is "bucket not found". An absent key is a NotFoundError for that key. Otherwise the stored value is returned. |
| KvStore.BoltStore.Delete | db/kvdb/bbolt.go:135-159 | An empty key is refused and a missing bucket is an error. Otherwise the key is gone and every other key is kept. |
| KvStore.BoltStore.Close | db/kvdb/bbolt.go:128-133 | With no handle the result is success; otherwise it is what closing reports. |
| KvStore.BoltStore.SetThenGet | db/kvdb/bbolt.go:63-126 | A read after a write of a non-empty key returns the value written when `Put` accepts it. When `Put` refuses it, the bucket is unchanged and the read returns the old value or not-found. |
| KvStore.BoltStore.DeleteThenGet | db/kvdb/bbolt.go:89-159 | After a delete the key is not found, and every other key keeps its value. |
| KvTypes.IsMatchesOwnSentinelOnly | db/kvdb/types.go:26-36 | An invalid-key error matches ErrInvalidKey and no other sentinel. A not-found error matches ErrNotFound and no other. |
| KvTypes.NotFoundMessageNamesKey | db/kvdb/types.go:30-32 | The key of a not-found error can be read back from its text. |
| KvTypes.MessagesTellErrorsApart | db/kvdb/types.go:22-32 | An invalid-key text never equals a not-found text, and two not-found texts agree only for the same key. |
| Decimal.ItoaAtoiRoundTrip | services/index/index.go:77-89 | For every 64-bit value, what setRequestStatus writes under Itoa, GetStatus reads back under Atoi unchanged. |
| Decimal.AtoiRejectsNonDigit | services/index/index.go:83-86 | Text with anything but digits after the optional sign is an invalid status value. |
| Decimal.Itoa | services/index/index.go:318 | The text is never empty; Atoi reads it back (ItoaAtoiRoundTrip). |
| Decimal.Atoi | services/index/index.go:83 | A parsed value fits the 64-bit int, and its text starts with a digit or a sign. |
| Text.TrimSpaceShape | db/searchdb/bleve.go:196 | Trimming cuts a blank prefix and a blank suffix and keeps the middle, which neither starts nor ends with whitespace. |
| Text.TrimSpaceEmptyIffBlank | validation/validation.go:98 | Trimming gives "" exactly for blank strings. |
| Text.TrimSpaceIdempotent | db/searchdb/bleve.go:204 | Trimming twice is trimming once. |
| Text.FieldsAreWords | db/searchdb/bleve.go:250 | Every field is a non-empty run of non-whitespace characters. |
| Text.FieldsEmptyIffBlank | db/searchdb/bleve.go:250 | A blank string has no fields, and a non-blank one has at least one. |
| Text.SingleFieldIsWhole | db/searchdb/bleve.go:252-257 | A trimmed string with a single field is that field. |
| Text.ToLowerIsLowerCase | services/index/tokenize.go:12 | Lower-casing leaves no upper-case ASCII letter. |
| Text.ExtShape | services/index/file_discovery.go:103 | An extension is empty, or a '.' followed by neither '.' nor '/'. |
| Text.ExtLower | services/index/file_discovery.go:103 | The extension of a lower-cased path is the lower-cased extension. |
| Text.LowerExtIgnoresCase | services/index/file_discovery.go:103 | Whether the lower-cased extension is in a table does not depend on the case of the path. |

## Left out

- Concurrency. The worker goroutine of the service, the hand-off in `Build` and the build loop (services/index/index.go:91-105) are not modelled. In `doBuildIndex` the workers run one after another, their batches reach `updateMetadata` in worker order, and cancellation is one flag checked at the end. Interleavings and the WaitGroup and channel are not modelled.
- IndexService.Service.Build: takes whether the worker is idle as a parameter, in place of the non-blocking channel send.
- IndexPlan.ProgressPercentageBounds: the interpolation is exact rational arithmetic, truncated toward zero. Go computes it in float64, whose rounding is not modelled.
- Unicode. Strings are bytes, whitespace is ASCII and lower-casing is ASCII. The Go validator's `min`/`max` count runes and the model counts bytes; so does getLineColumn's column. JavaScript's `trim` also removes Unicode spaces.
- Time. Modification and index times are integers, and `time.Now` is a parameter.
- The file system. The walk (`filepath.Walk`), `os.Stat`, `os.Open`, `ReadAt` and the file reader are parameters: a list of walk entries, a predicate, and sources whose bytes and error are given.
- IndexService.Service.GetDeletedFiles: `present` stands for `os.Stat` not reporting "does not exist". The `GetAllKeys` listing of the files bucket is a parameter, because the metadata store behind it is only an interface.
- Store errors other than an absent key are not modelled for the service's two buckets. A write to them always succeeds, and `setRequestStatus` ignores its own error.
- ExtractContent.ReadTextContent: the file size only sizes the buffer in Go, so it does not affect the model. The buffer pool is not modelled.
- The MIME fallback of the newer store's `isTextFile` (`mime.TypeByExtension`) is a parameter.
- SearchDB.FirstLocation: Go's map iteration order is unspecified. The terms are given in the order the map yields them.
- The Bleve index itself (analysis, scoring, highlighting, the index mapping, `GetDocCount`) is a parameter answering each request. Boosts are named tags, not the float values.
- Validation.Validator.Validate: the validator library's rule engine is not modelled. What it reports for each request type is written out per request (`IndexRequestCheck`, `StatusRequestCheck`, `SearchRequestCheck`). The fallback to the Go field name when a field has no json tag is the library's behaviour.
- The `valid_paths` tag on `ExcludeFolders` is never registered by the validator. The model treats it as passing and checks exclude paths only in `semanticallyValidateExcludePaths`.
- The `uuid` rule on the request id is a parameter.
- Validation.Validator.RegisterCustomValidatorsForTags: Go ranges over a map in an unspecified order. The model registers `valid_path` before `valid_query`.
- The logger and UUID generation (the new id is a parameter).
- KvStore.BoltStore.Set: whether bbolt's `Put` accepts the key (it refuses, for example, a key longer than bbolt's maximum) is a parameter.
- An entry that carries both file info and an error stands for a directory whose listing failed: `filepath.Walk` calls the callback once with the directory's info and that error and does not descend into it.
- KvStore.BoltStore.Close: using the store after `Close` is not modelled. `closed` records the call, but Set, Get and Delete do not read it, whereas bbolt refuses them once the database is closed.
- `calculatePagination` is not part of this model. The search reply records the total, the limit and the offset it is called with.
- api/handlers/response.go and the `Http.Failure`/`Http.Success` helpers are reply glue without a contract of their own.
- Server plumbing (config, router, middleware, server, main) and services/search/search.go, which only passes the call on.
- UiClient: rendering and the DOM are not modelled, nor are `showStatus` text styles beyond error, loading and success, the suggestions dropdown, `createResultElement`, `copyFilePath` and `formatFileSize` (floating point). `localStorage` is recorded as the lists stored, and `fetch` becomes the outcome of the request given to the Complete methods. The buttons' initial state comes from the page's markup and is not modelled.
- The fetch `await` points split `handleIndex` and `handleSearch` into a Begin method (guards and request) and a Complete method (response and `finally`).

## Findings

| source | as written | input that shows it | evidently intended | confidence | as-written member | corrected member |
|---|---|---|---|---|---|---|
| services/index/index.go:327 | the batch loop runs `for i := 0; i <= max(0, n-100); i += 100`, so it stops at the last multiple of 100 not above n-100 | a portion of 101 files: only [0, 100) is submitted and file 100 is never indexed. 5050 files give 50 portions of 101, and 50 files are lost | `for i := 0; i < n; i += 100`, covering every file of the portion | not executed | IndexPlan.AsWrittenEndMissesTail | IndexPlan.CorrectedRangesCover |
| services/index/file_discovery.go:36 | a permission error is let through (lines 30-33) and the callback then calls `info.IsDir()`. When `Lstat` of an entry fails, `filepath.Walk` passes a nil `info`, so the call dereferences nil and the panic, in the indexing goroutine, ends the process | a directory the walk can list but whose file `a.txt` it cannot `Lstat` (EACCES): the callback is called with a nil info and a permission error for `a.txt` | pass over the entry and go on with the walk | not executed | FileDiscovery.AsWrittenCrashesOnUnreadable | FileDiscovery.IntendedWalkNeverCrashes |

The service model (`IndexService.ForFilesPortion`) keeps the loop as written,
so what `doBuildIndex` records and reports is what the code does. The
corrected loop is proved separately. In the same way, `DiscoverModifiedFiles`
and `Service.BuildIndex` keep the walk as written, which crashes. The walk
that passes over such entries is `WalkFrom` with `skipUnreadable` set, and
`WalkCompleteInOrder` and `IntendedWalkNeverCrashes` cover it.

Other behaviour the model keeps as written:
- Each quoted phrase adds a content-phrase clause on the whole query, not on the phrase.
- `extractSnippet` does not use its query argument.
- The result record of db/searchdb/models.go has no snippet field, so `SearchDB.SearchResult` keeps the snippet beside the record.
- The page offset is computed in 64-bit arithmetic, and a huge page wraps it negative (`HandlersSearch.OffsetWrapsForHugePages`).
