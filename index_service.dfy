/** The indexing service of services/index/index.go, run sequentially: the
    request statuses it writes, the deleted-file clean-up, the split of the
    files among workers, the batches each worker submits, and the file
    metadata recorded afterwards. The store's two buckets are maps; the
    indexer, the file system and the clock are parameters. */
module IndexService {
  import opened Wrappers
  import opened Seqs
  import opened Decimal
  import opened Batching
  import opened KvTypes
  import opened SearchModels
  import opened FileDiscovery
  import opened ExtractContent
  import opened IndexPlan

  const ProgressStatusQueued: int := 0
  const ProgressStatusStep1: int := 10
  const ProgressStatusStep2: int := 20
  const ProgressStatusComplete: int := 100
  const ProgressStatusFailed: int := -1

  /** updateMetadata reports progress whenever its count is a multiple of
      this. */
  const MetadataProgressEvery: nat := 1000

  const AlreadyInProgress: string := "indexing already in progress"
  const EmptyFilePath: string := "filepath cannot be empty"
  const DeleteFailedPrefix: string := "failed to delete documents from search index: "
  const AllKeysFailedPrefix: string := "failed to get all keys from database: "

  /** Why GetStatus has no status: nothing stored for the request, or stored
      text that is not a decimal integer. */
  datatype StatusError = RequestNotFound | InvalidStatusValue(text: string)

  /** The metadata store's answer for a file path (getFileMetadata). */
  function LookupIn(files: map<string, FileMetadata>): string -> Result<FileMetadata, LookupError>
  {
    path => if path in files then Ok(files[path]) else Err(StoreError(NotFound(path)))
  }

  // ----- one batch -----

  /** The files of `batch` whose content extraction succeeds, in order. */
  function Extracted(batch: seq<FileInfo>, open: string -> Result<Source, string>): seq<FileInfo>
    decreases |batch|
  {
    if batch == [] then []
    else
      var last := batch[|batch| - 1];
      Extracted(batch[..|batch| - 1], open) + (if ExtractResult(last, open).Ok? then [last] else [])
  }

  /** Their documents, in the same order. */
  function ExtractedDocs(batch: seq<FileInfo>, open: string -> Result<Source, string>): seq<Document>
    decreases |batch|
  {
    if batch == [] then []
    else
      var last := batch[|batch| - 1];
      ExtractedDocs(batch[..|batch| - 1], open)
      + (if ExtractResult(last, open).Ok? then [ExtractResult(last, open).value] else [])
  }

  /** doBuildIndexForSingleBatchOfFiles: the files whose documents were
      indexed, or none when the indexer refuses the batch. `indexer` says
      whether BuildIndex succeeds on a list of documents. */
  function BatchResult(batch: seq<FileInfo>, open: string -> Result<Source, string>, indexer: seq<Document> -> bool): seq<FileInfo>
  {
    if indexer(ExtractedDocs(batch, open)) then Extracted(batch, open) else []
  }

  /** Each survivor of extraction is paired with its own document. */
  lemma {:induction false} ExtractedPaired(batch: seq<FileInfo>, open: string -> Result<Source, string>)
    ensures |ExtractedDocs(batch, open)| == |Extracted(batch, open)| <= |batch|
    ensures forall k :: 0 <= k < |Extracted(batch, open)| ==>
              ExtractResult(Extracted(batch, open)[k], open) == Ok(ExtractedDocs(batch, open)[k])
    decreases |batch|
  {
    if batch != [] {
      var init := batch[..|batch| - 1];
      ExtractedPaired(init, open);
      var e := Extracted(batch, open);
      var d := ExtractedDocs(batch, open);
      forall k | 0 <= k < |e|
        ensures ExtractResult(e[k], open) == Ok(d[k])
      {
        if k < |Extracted(init, open)| {
          assert e[k] == Extracted(init, open)[k];
          assert d[k] == ExtractedDocs(init, open)[k];
        }
      }
    }
  }

  /** The survivors are exactly the files of the batch that extract. */
  lemma {:induction false} ExtractedMembers(batch: seq<FileInfo>, open: string -> Result<Source, string>)
    ensures forall f :: f in Extracted(batch, open) <==> f in batch && ExtractResult(f, open).Ok?
    decreases |batch|
  {
    if batch != [] {
      var init := batch[..|batch| - 1];
      ExtractedMembers(init, open);
      assert batch == init + [batch[|batch| - 1]];
    }
  }

  /** When every file extracts, the batch is kept whole and in order. */
  lemma {:induction false} ExtractedAll(batch: seq<FileInfo>, open: string -> Result<Source, string>)
    requires forall k :: 0 <= k < |batch| ==> ExtractResult(batch[k], open).Ok?
    ensures Extracted(batch, open) == batch
    decreases |batch|
  {
    if batch != [] {
      var init := batch[..|batch| - 1];
      assert forall k :: 0 <= k < |init| ==> init[k] == batch[k];
      ExtractedAll(init, open);
      assert batch == init + [batch[|batch| - 1]];
    }
  }

  /** A batch the indexer refuses records nothing; otherwise the survivors
      of extraction are recorded. */
  lemma {:induction false} BatchResultShape(batch: seq<FileInfo>, open: string -> Result<Source, string>, indexer: seq<Document> -> bool)
    ensures !indexer(ExtractedDocs(batch, open)) ==> BatchResult(batch, open, indexer) == []
    ensures forall f :: f in BatchResult(batch, open, indexer) ==> f in batch && ExtractResult(f, open).Ok?
    ensures indexer(ExtractedDocs(batch, open)) ==>
              forall f :: f in batch && ExtractResult(f, open).Ok? ==> f in BatchResult(batch, open, indexer)
  {
    ExtractedMembers(batch, open);
  }

  /** doBuildIndexForSingleBatchOfFiles: each file's content is extracted,
      a file that fails is skipped, and the documents are handed to the
      indexer in one call. */
  method SingleBatch(batch: seq<FileInfo>, open: string -> Result<Source, string>, indexer: seq<Document> -> bool)
    returns (processed: seq<FileInfo>)
    ensures processed == BatchResult(batch, open, indexer)
  {
    var documents: seq<Document> := [];
    var kept: seq<FileInfo> := [];
    var i := 0;
    while i < |batch|
      invariant 0 <= i <= |batch|
      invariant documents == ExtractedDocs(batch[..i], open)
      invariant kept == Extracted(batch[..i], open)
    {
      assert batch[..i + 1][..i] == batch[..i];
      var doc := Extract(batch[i], open);
      if doc.Ok? {
        documents := documents + [doc.value];
        kept := kept + [batch[i]];
      }
      i := i + 1;
    }
    assert batch[..i] == batch;
    if !indexer(documents) {
      return [];
    }
    return kept;
  }

  // ----- one worker's portion -----

  /** Every range lies within [0, n]. */
  predicate InBounds(ranges: seq<(nat, nat)>, n: nat)
  {
    forall k :: 0 <= k < |ranges| ==> ranges[k].0 <= ranges[k].1 <= n
  }

  lemma {:induction false} AsWrittenInBounds(n: nat, i: nat)
    ensures InBounds(AsWrittenRangesFrom(n, i), n)
    decreases n + BatchSize - i
  {
    var bound := if n >= BatchSize then n - BatchSize else 0;
    if i <= bound {
      AsWrittenInBounds(n, i + BatchSize);
      var r := AsWrittenRangesFrom(n, i);
      assert forall k :: 1 <= k < |r| ==> r[k] == AsWrittenRangesFrom(n, i + BatchSize)[k - 1];
    }
  }

  /** The results of the batches cut from `files` by `ranges`, in order. */
  function BatchesOver(files: seq<FileInfo>, ranges: seq<(nat, nat)>, open: string -> Result<Source, string>,
                       indexer: seq<Document> -> bool): seq<seq<FileInfo>>
    requires InBounds(ranges, |files|)
    decreases |ranges|
  {
    if ranges == [] then []
    else [BatchResult(files[ranges[0].0..ranges[0].1], open, indexer)] + BatchesOver(files, ranges[1..], open, indexer)
  }

  /** What one worker hands on for its portion: the results of its
      as-written batches. */
  function PortionBatches(portion: seq<FileInfo>, open: string -> Result<Source, string>, indexer: seq<Document> -> bool): seq<seq<FileInfo>>
  {
    AsWrittenInBounds(|portion|, 0);
    BatchesOver(portion, AsWrittenRanges(|portion|), open, indexer)
  }

  /** doBuildIndexForFilesPortion, with the loop bound as written:
      `for i := 0; i <= max(0, n-100); i += 100`. */
  method ForFilesPortion(portion: seq<FileInfo>, open: string -> Result<Source, string>, indexer: seq<Document> -> bool)
    returns (batches: seq<seq<FileInfo>>)
    ensures batches == PortionBatches(portion, open, indexer)
  {
    var n := |portion|;
    var bound := if n >= BatchSize then n - BatchSize else 0;
    batches := [];
    var i: nat := 0;
    AsWrittenInBounds(n, 0);
    while i <= bound
      invariant InBounds(AsWrittenRangesFrom(n, i), n)
      invariant batches + BatchesOver(portion, AsWrittenRangesFrom(n, i), open, indexer) == PortionBatches(portion, open, indexer)
      decreases bound + BatchSize - i
    {
      var end := if i + BatchSize <= n then i + BatchSize else n;
      ghost var rest := AsWrittenRangesFrom(n, i + BatchSize);
      assert AsWrittenRangesFrom(n, i) == [(i, end)] + rest;
      AsWrittenInBounds(n, i + BatchSize);
      assert AsWrittenRangesFrom(n, i)[1..] == rest;
      var processed := SingleBatch(portion[i..end], open, indexer);
      assert batches + BatchesOver(portion, AsWrittenRangesFrom(n, i), open, indexer)
             == (batches + [processed]) + BatchesOver(portion, rest, open, indexer);
      batches := batches + [processed];
      i := i + BatchSize;
    }
    assert AsWrittenRangesFrom(n, i) == [];
    assert batches + [] == batches;
  }

  // ----- the whole build -----

  /** The results of all workers' portions, worker by worker. */
  function AllBatches(files: seq<FileInfo>, parts: seq<(nat, nat)>, open: string -> Result<Source, string>,
                      indexer: seq<Document> -> bool): seq<seq<FileInfo>>
    requires InBounds(parts, |files|)
    decreases |parts|
  {
    if parts == [] then []
    else PortionBatches(files[parts[0].0..parts[0].1], open, indexer) + AllBatches(files, parts[1..], open, indexer)
  }

  /** The batch results of a build over `files` (n > 0). */
  function BuildBatches(files: seq<FileInfo>, open: string -> Result<Source, string>, indexer: seq<Document> -> bool): seq<seq<FileInfo>>
    requires |files| > 0
  {
    PartitionCovers(|files|);
    AllBatches(files, PartitionOf(|files|), open, indexer)
  }

  /** The worker count and portion size of doBuildIndex, then its loop
      handing each worker its portion. */
  method Partition(n: nat) returns (portions: seq<(nat, nat)>)
    requires n > 0
    ensures portions == PartitionOf(n)
  {
    var num := if n < MaxGoRoutinesForFileProcessing then n else MaxGoRoutinesForFileProcessing;
    var per := n / num;
    if per == 0 {
      per := 1;
    }
    WorkersAndPortion(n, num, per);
    portions := HandOutPortions(n, num, per);
  }

  /** The loop of doBuildIndex that hands each of `num` workers its portion
      of `per` files. */
  method HandOutPortions(n: nat, num: nat, per: nat) returns (portions: seq<(nat, nat)>)
    ensures portions == PartitionFrom(n, num, per, 0)
  {
    portions := [];
    var i := 0;
    while i < num
      invariant i <= num
      invariant portions + PartitionFrom(n, num, per, i) == PartitionFrom(n, num, per, 0)
    {
      var start := i * per;
      var end := start + per;
      if i == num - 1 {
        end := n;
      }
      PartitionFromUnfold(n, num, per, i, start);
      if start >= n {
        assert portions + [] == portions;
        return;
      }
      portions := portions + [(start, end)];
      i := i + 1;
    }
    assert portions + [] == portions;
  }

  /** Files whose path is not empty, the ones setFileMetadata accepts. */
  function NonEmptyPaths(batch: seq<FileInfo>): nat
    decreases |batch|
  {
    if batch == [] then 0 else (if batch[0].path != [] then 1 else 0) + NonEmptyPaths(batch[1..])
  }

  /** The status writes of updateMetadata over `batches`, with `count`
      metadata updates made before them out of `total` files: after each
      batch, the progress when the count is a multiple of 1000. */
  function ProgressWrites(requestID: string, batches: seq<seq<FileInfo>>, count: nat, total: nat): seq<(string, int)>
    decreases |batches|
  {
    if batches == [] then []
    else
      var c := count + NonEmptyPaths(batches[0]);
      ReportWrites(requestID, c, total) + ProgressWrites(requestID, batches[1..], c, total)
  }

  /** The progress write after a batch that brings the count to `count`. */
  function ReportWrites(requestID: string, count: nat, total: nat): seq<(string, int)>
  {
    if count % MetadataProgressEvery == 0
    then [(requestID, GetProgressPercentage(count, total, ProgressStatusStep2, ProgressStatusComplete))]
    else []
  }

  /** Every progress write is for the request and lies in [20, 100]. */
  lemma {:induction false} ProgressWritesBounded(requestID: string, batches: seq<seq<FileInfo>>, count: nat, total: nat)
    ensures forall w :: w in ProgressWrites(requestID, batches, count, total) ==>
              w.0 == requestID && ProgressStatusStep2 <= w.1 <= ProgressStatusComplete
    decreases |batches|
  {
    if batches != [] {
      var c := count + NonEmptyPaths(batches[0]);
      ProgressPercentageRange(c, total, ProgressStatusStep2, ProgressStatusComplete);
      ProgressWritesBounded(requestID, batches[1..], c, total);
    }
  }

  /** File metadata after recording `indexTime` for each file in turn; a file
      with an empty path is refused. */
  function RecordedFiles(m: map<string, FileMetadata>, fs: seq<FileInfo>, indexTime: int): map<string, FileMetadata>
    decreases |fs|
  {
    if fs == [] then m
    else RecordedFiles(if fs[0].path != [] then m[fs[0].path := FileMetadata(indexTime)] else m, fs[1..], indexTime)
  }

  /** File metadata after recording each batch in turn. */
  function RecordedBatches(m: map<string, FileMetadata>, batches: seq<seq<FileInfo>>, indexTime: int): map<string, FileMetadata>
    decreases |batches|
  {
    if batches == [] then m else RecordedBatches(RecordedFiles(m, batches[0], indexTime), batches[1..], indexTime)
  }

  /** Some file of `fs` has path `p`. */
  predicate HasPath(fs: seq<FileInfo>, p: string)
  {
    exists k :: 0 <= k < |fs| && fs[k].path == p
  }

  /** Recording marks every non-empty path of the files with `indexTime`
      and leaves every other entry as it was. */
  lemma {:induction false} RecordedFilesShape(m: map<string, FileMetadata>, fs: seq<FileInfo>, indexTime: int)
    ensures forall p :: p in RecordedFiles(m, fs, indexTime) <==> p in m || (p != [] && HasPath(fs, p))
    ensures forall p :: p != [] && HasPath(fs, p) ==> RecordedFiles(m, fs, indexTime)[p] == FileMetadata(indexTime)
    ensures forall p :: p in m && !(p != [] && HasPath(fs, p)) ==> RecordedFiles(m, fs, indexTime)[p] == m[p]
    decreases |fs|
  {
    if fs != [] {
      var m' := if fs[0].path != [] then m[fs[0].path := FileMetadata(indexTime)] else m;
      var rest := fs[1..];
      RecordedFilesShape(m', rest, indexTime);
      forall p
        ensures HasPath(fs, p) <==> fs[0].path == p || HasPath(rest, p)
      {
        if HasPath(fs, p) {
          var k :| 0 <= k < |fs| && fs[k].path == p;
          if k > 0 {
            assert rest[k - 1].path == p;
          }
        }
        if HasPath(rest, p) {
          var k :| 0 <= k < |rest| && rest[k].path == p;
          assert fs[k + 1].path == p;
        }
        if fs[0].path == p {
          assert fs[0].path == p;
        }
      }
    }
  }

  /** The requests bucket after the status writes, in order. */
  function Applied(requests: map<string, string>, writes: seq<(string, int)>): map<string, string>
    decreases |writes|
  {
    if writes == [] then requests else Applied(requests[writes[0].0 := Itoa(writes[0].1)], writes[1..])
  }

  /** After writes that all go to one request, the bucket holds the last
      status written for it, and no other entry changes. */
  lemma {:induction false} AppliedLast(requests: map<string, string>, writes: seq<(string, int)>, requestID: string)
    requires writes != [] && forall w :: w in writes ==> w.0 == requestID
    ensures Applied(requests, writes) == requests[requestID := Itoa(writes[|writes| - 1].1)]
    decreases |writes|
  {
    if |writes| > 1 {
      assert writes[1..][|writes[1..]| - 1] == writes[|writes| - 1];
      assert forall w :: w in writes[1..] ==> w in writes;
      AppliedLast(requests[requestID := Itoa(writes[0].1)], writes[1..], requestID);
    }
  }

  /** Every status write of doBuildIndex over `files`: 100 at once when there
      are none; otherwise the progress writes of updateMetadata, -1 when the
      build was cancelled, and 100. */
  function BuildWrites(requestID: string, files: seq<FileInfo>, cancelled: bool,
                       open: string -> Result<Source, string>, indexer: seq<Document> -> bool): seq<(string, int)>
  {
    if |files| == 0 then [(requestID, ProgressStatusComplete)]
    else FinishWrites(requestID, BuildBatches(files, open, indexer), |files|, cancelled)
  }

  /** The status writes once the workers have handed on `batches`: the
      progress writes, -1 when the build was cancelled, and 100. */
  function FinishWrites(requestID: string, batches: seq<seq<FileInfo>>, total: nat, cancelled: bool): seq<(string, int)>
  {
    ProgressWrites(requestID, batches, 0, total)
    + (if cancelled then [(requestID, ProgressStatusFailed)] else [])
    + [(requestID, ProgressStatusComplete)]
  }

  /** doBuildIndex always ends by writing 100, even after -1 on
      cancellation; every other write is for the request and is either the
      -1 of a cancelled build or a progress value in [20, 100]; -1 appears
      only when the build was cancelled. */
  lemma {:induction false} BuildWritesShape(requestID: string, files: seq<FileInfo>, cancelled: bool,
                                            open: string -> Result<Source, string>, indexer: seq<Document> -> bool)
    ensures var writes := BuildWrites(requestID, files, cancelled, open, indexer);
            && writes != [] && writes[|writes| - 1] == (requestID, ProgressStatusComplete)
            && (forall w :: w in writes ==> w.0 == requestID)
            && (forall w :: w in writes ==> w.1 == ProgressStatusFailed || ProgressStatusStep2 <= w.1 <= ProgressStatusComplete)
            && ((requestID, ProgressStatusFailed) in writes <==> cancelled && |files| > 0)
  {
    if |files| > 0 {
      ProgressWritesBounded(requestID, BuildBatches(files, open, indexer), 0, |files|);
    }
  }

  /** Whether the deleted files could be listed and removed: the keys were
      read, and either none is missing or the indexer deleted them. */
  predicate CleanOk(keys: Result<seq<string>, string>, present: string -> bool, deleteDocuments: seq<string> -> Option<string>)
  {
    keys.Ok? && (Missing(keys.value, present) == [] || deleteDocuments(Missing(keys.value, present)).None?)
  }

  /** The status writes of buildIndex after 10: -1 when the deleted files
      could not be listed or removed, otherwise 20 and the writes of the
      build over the modified files. */
  function CleanWrites(requestID: string, found: seq<FileInfo>, keys: Result<seq<string>, string>, present: string -> bool,
                       deleteDocuments: seq<string> -> Option<string>, cancelled: bool,
                       open: string -> Result<Source, string>, indexer: seq<Document> -> bool): seq<(string, int)>
  {
    if CleanOk(keys, present, deleteDocuments)
    then [(requestID, ProgressStatusStep2)] + BuildWrites(requestID, found, cancelled, open, indexer)
    else [(requestID, ProgressStatusFailed)]
  }

  /** The file metadata after that part of buildIndex: unchanged when it
      stops, otherwise the deleted files removed and the build recorded. */
  function CleanRecorded(m: map<string, FileMetadata>, found: seq<FileInfo>, keys: Result<seq<string>, string>,
                         present: string -> bool, deleteDocuments: seq<string> -> Option<string>, indexTime: int,
                         open: string -> Result<Source, string>, indexer: seq<Document> -> bool): map<string, FileMetadata>
  {
    if CleanOk(keys, present, deleteDocuments)
    then BuildRecorded(Removed(m, Missing(keys.value, present)), found, indexTime, open, indexer)
    else m
  }

  /** The file metadata after a build over `files` at `indexTime`. */
  function BuildRecorded(m: map<string, FileMetadata>, files: seq<FileInfo>, indexTime: int,
                         open: string -> Result<Source, string>, indexer: seq<Document> -> bool): map<string, FileMetadata>
  {
    if |files| == 0 then m else RecordedFiles(m, Flatten(BuildBatches(files, open, indexer)), indexTime)
  }

  /** The keys whose files no longer exist, in key order. */
  function Missing(keys: seq<string>, present: string -> bool): seq<string>
    decreases |keys|
  {
    if keys == [] then []
    else
      var last := keys[|keys| - 1];
      Missing(keys[..|keys| - 1], present) + (if present(last) then [] else [last])
  }

  /** A key is reported deleted exactly when its file does not exist. */
  lemma {:induction false} MissingMembers(keys: seq<string>, present: string -> bool)
    ensures forall k :: k in Missing(keys, present) <==> k in keys && !present(k)
    ensures |Missing(keys, present)| <= |keys|
    decreases |keys|
  {
    if keys != [] {
      var init := keys[..|keys| - 1];
      MissingMembers(init, present);
      assert keys == init + [keys[|keys| - 1]];
    }
  }

  /** The metadata of the deleted files removed. */
  function Removed(m: map<string, FileMetadata>, deleted: seq<string>): map<string, FileMetadata>
  {
    m - (set p | p in deleted)
  }

  class Service {
    /** The requests bucket: each request's status as decimal text. */
    var requests: map<string, string>
    /** The files bucket: each indexed file's metadata. */
    var files: map<string, FileMetadata>
    /** Every status written by setRequestStatus, in order. */
    var statusWrites: seq<(string, int)>

    constructor ()
      ensures requests == map[] && files == map[] && statusWrites == []
    {
      requests := map[];
      files := map[];
      statusWrites := [];
    }

    /** setRequestStatus: the status is stored as its decimal text. */
    method SetRequestStatus(requestID: string, status: int)
      modifies this`requests, this`statusWrites
      ensures requests == old(requests)[requestID := Itoa(status)]
      ensures statusWrites == old(statusWrites) + [(requestID, status)]
    {
      requests := requests[requestID := Itoa(status)];
      statusWrites := statusWrites + [(requestID, status)];
    }

    /** GetStatus: the stored text parsed as a decimal integer. A status
        written by SetRequestStatus is read back unchanged. */
    method GetStatus(requestID: string) returns (status: Result<int, StatusError>)
      ensures requestID !in requests <==> status == Err(RequestNotFound)
      ensures requestID in requests ==>
                (status.Ok? <==> Atoi(requests[requestID]).Some?)
                && (status.Ok? ==> status.value == Atoi(requests[requestID]).value)
                && (status.Err? ==> status == Err(InvalidStatusValue(requests[requestID])))
      ensures forall s :: MinInt64 <= s <= MaxInt64 && requestID in requests && requests[requestID] == Itoa(s) ==>
                status == Ok(s)
    {
      if requestID !in requests {
        return Err(RequestNotFound);
      }
      var value := requests[requestID];
      forall s | MinInt64 <= s <= MaxInt64 && value == Itoa(s)
        ensures Atoi(value) == Some(s)
      {
        ItoaAtoiRoundTrip(s);
      }
      var parsed := Atoi(value);
      if parsed.None? {
        return Err(InvalidStatusValue(value));
      }
      return Ok(parsed.value);
    }

    /** Build: the request is marked 0, then handed to the worker when it is
        idle; a busy worker is an error. */
    method Build(requestID: string, workerIdle: bool) returns (r: Outcome<string>)
      modifies this`requests, this`statusWrites
      ensures requests == old(requests)[requestID := Itoa(ProgressStatusQueued)]
      ensures statusWrites == old(statusWrites) + [(requestID, ProgressStatusQueued)]
      ensures r == if workerIdle then Pass else Fail(AlreadyInProgress)
    {
      SetRequestStatus(requestID, ProgressStatusQueued);
      if !workerIdle {
        return Fail(AlreadyInProgress);
      }
      return Pass;
    }

    /** setFileMetadata: an empty path is refused. */
    method SetFileMetadata(path: string, metadata: FileMetadata) returns (r: Outcome<string>)
      modifies this`files
      ensures path == [] ==> r == Fail(EmptyFilePath) && files == old(files)
      ensures path != [] ==> r == Pass && files == old(files)[path := metadata]
    {
      if path == [] {
        return Fail(EmptyFilePath);
      }
      files := files[path := metadata];
      return Pass;
    }

    /** removeDeletedFiles: nothing to do for no files; otherwise the
        documents are deleted from the index, and only then the metadata of
        each file, whose failures are ignored. `deleteDocuments` is the
        indexer's answer. */
    method RemoveDeletedFiles(deleted: seq<string>, deleteDocuments: seq<string> -> Option<string>)
      returns (r: Outcome<string>)
      modifies this`files
      ensures deleted == [] ==> r == Pass && files == old(files)
      ensures deleted != [] && deleteDocuments(deleted).Some? ==>
                r == Fail(DeleteFailedPrefix + deleteDocuments(deleted).value) && files == old(files)
      ensures deleted != [] && deleteDocuments(deleted).None? ==> r == Pass && files == Removed(old(files), deleted)
    {
      if |deleted| == 0 {
        return Pass;
      }
      var err := deleteDocuments(deleted);
      if err.Some? {
        return Fail(DeleteFailedPrefix + err.value);
      }
      var i := 0;
      while i < |deleted|
        invariant 0 <= i <= |deleted|
        invariant files == Removed(old(files), deleted[..i])
      {
        assert deleted[..i + 1] == deleted[..i] + [deleted[i]];
        files := files - {deleted[i]};
        i := i + 1;
      }
      assert deleted[..i] == deleted;
      return Pass;
    }

    /** getDeletedFiles: the stored file paths whose files no longer exist.
        `keys` is the store's list of the files bucket's keys, `present`
        whether a path still exists. */
    method GetDeletedFiles(keys: Result<seq<string>, string>, present: string -> bool) returns (r: Result<seq<string>, string>)
      ensures keys.Err? ==> r == Err(AllKeysFailedPrefix + keys.error)
      ensures keys.Ok? ==> r == Ok(Missing(keys.value, present))
    {
      if keys.Err? {
        return Err(AllKeysFailedPrefix + keys.error);
      }
      var deleted: seq<string> := [];
      var i := 0;
      while i < |keys.value|
        invariant 0 <= i <= |keys.value|
        invariant deleted == Missing(keys.value[..i], present)
      {
        assert keys.value[..i + 1][..i] == keys.value[..i];
        if !present(keys.value[i]) {
          deleted := deleted + [keys.value[i]];
        }
        i := i + 1;
      }
      assert keys.value[..i] == keys.value;
      return Ok(deleted);
    }

    /** The inner loop of updateMetadata: the metadata of each file of the
        batch set to `indexTime`, counting the updates that succeed. */
    method RecordBatch(batch: seq<FileInfo>, indexTime: int) returns (updated: nat)
      modifies this`files
      ensures files == RecordedFiles(old(files), batch, indexTime)
      ensures updated == NonEmptyPaths(batch)
    {
      updated := 0;
      var j := 0;
      while j < |batch|
        invariant 0 <= j <= |batch|
        invariant RecordedFiles(files, batch[j..], indexTime) == RecordedFiles(old(files), batch, indexTime)
        invariant updated + NonEmptyPaths(batch[j..]) == NonEmptyPaths(batch)
      {
        assert batch[j..][1..] == batch[j + 1..];
        var r := SetFileMetadata(batch[j].path, FileMetadata(indexTime));
        if r.Pass? {
          updated := updated + 1;
        }
        j := j + 1;
      }
    }

    /** One pass of updateMetadata's outer loop: the batch recorded, then
        the progress written when the new count is a multiple of 1000. */
    method RecordBatchAndReport(requestID: string, indexTime: int, total: nat, batch: seq<FileInfo>, count: nat)
      returns (newCount: nat)
      modifies this
      ensures newCount == count + NonEmptyPaths(batch)
      ensures files == RecordedFiles(old(files), batch, indexTime)
      ensures statusWrites == old(statusWrites) + ReportWrites(requestID, newCount, total)
      ensures requests == Applied(old(requests), ReportWrites(requestID, newCount, total))
    {
      var updated := RecordBatch(batch, indexTime);
      newCount := count + updated;
      if newCount % MetadataProgressEvery == 0 {
        var status := GetProgressPercentage(newCount, total, ProgressStatusStep2, ProgressStatusComplete);
        SetRequestStatus(requestID, status);
      } else {
        assert statusWrites + [] == statusWrites;
      }
    }

    /** One receive of updateMetadata's loop, keeping its invariant. */
    method LoopPass(requestID: string, indexTime: int, total: nat, pending: seq<seq<FileInfo>>, count: nat,
                    ghost filesT: map<string, FileMetadata>, ghost writesT: seq<(string, int)>,
                    ghost requestsT: map<string, string>)
      returns (newCount: nat)
      requires pending != []
      requires MetadataLoop(filesT, writesT, requestsT, files, statusWrites, requests, requestID, indexTime, total, pending, count)
      modifies this
      ensures MetadataLoop(filesT, writesT, requestsT, files, statusWrites, requests, requestID, indexTime, total, pending[1..], newCount)
    {
      ghost var filesBefore := files;
      ghost var writesBefore := statusWrites;
      ghost var requestsBefore := requests;
      newCount := RecordBatchAndReport(requestID, indexTime, total, pending[0], count);
      MetadataLoopStep(filesT, writesT, requestsT, filesBefore, writesBefore, requestsBefore,
                       files, statusWrites, requests, requestID, indexTime, total, pending, count);
    }

    /** updateMetadata over the batches the workers hand on, received in
        order: each file's metadata is set to `indexTime`, successful
        updates are counted, and after each batch whose count is a
        multiple of 1000 the progress between 20 and 100 is written. */
    method UpdateMetadata(requestID: string, indexTime: int, total: nat, batches: seq<seq<FileInfo>>)
      modifies this
      ensures files == RecordedFiles(old(files), Flatten(batches), indexTime)
      ensures statusWrites == old(statusWrites) + ProgressWrites(requestID, batches, 0, total)
      ensures requests == Applied(old(requests), ProgressWrites(requestID, batches, 0, total))
    {
      ghost var filesT := RecordedBatches(files, batches, indexTime);
      ghost var writesT := statusWrites + ProgressWrites(requestID, batches, 0, total);
      ghost var requestsT := Applied(requests, ProgressWrites(requestID, batches, 0, total));
      RecordedBatchesFlatten(files, batches, indexTime);
      var count: nat := 0;
      var pending := batches;
      while pending != []
        invariant MetadataLoop(filesT, writesT, requestsT, files, statusWrites, requests,
                               requestID, indexTime, total, pending, count)
        decreases |pending|
      {
        count := LoopPass(requestID, indexTime, total, pending, count, filesT, writesT, requestsT);
        pending := pending[1..];
      }
      MetadataLoopEnd(filesT, writesT, requestsT, files, statusWrites, requests, requestID, indexTime, total, count);
    }

    /** doBuildIndex: with no files, 100 at once; otherwise the portions of
        the workers are processed one after another, their batches are
        recorded by updateMetadata, -1 is written if the build was
        cancelled, and 100 last in every case. */
    method DoBuildIndex(requestID: string, indexTime: int, fileList: seq<FileInfo>, cancelled: bool,
                        open: string -> Result<Source, string>, indexer: seq<Document> -> bool)
      modifies this
      ensures statusWrites == old(statusWrites) + BuildWrites(requestID, fileList, cancelled, open, indexer)
      ensures requests == Applied(old(requests), BuildWrites(requestID, fileList, cancelled, open, indexer))
      ensures files == BuildRecorded(old(files), fileList, indexTime, open, indexer)
    {
      if |fileList| == 0 {
        SetRequestStatus(requestID, ProgressStatusComplete);
        return;
      }
      var portions := Partition(|fileList|);
      PartitionCovers(|fileList|);
      var batches := ProcessPortions(fileList, portions, open, indexer);
      assert batches == BuildBatches(fileList, open, indexer);
      FinishBuild(requestID, indexTime, |fileList|, batches, cancelled);
    }

    /** The end of doBuildIndex once the workers are done: updateMetadata
        over their batches, -1 if the build was cancelled, then 100. */
    method FinishBuild(requestID: string, indexTime: int, total: nat, batches: seq<seq<FileInfo>>, cancelled: bool)
      modifies this
      ensures statusWrites == old(statusWrites) + FinishWrites(requestID, batches, total, cancelled)
      ensures requests == Applied(old(requests), FinishWrites(requestID, batches, total, cancelled))
      ensures files == RecordedFiles(old(files), Flatten(batches), indexTime)
    {
      ghost var progress := ProgressWrites(requestID, batches, 0, total);
      ghost var cancel := if cancelled then [(requestID, ProgressStatusFailed)] else [];
      ghost var last := (requestID, ProgressStatusComplete);
      UpdateMetadata(requestID, indexTime, total, batches);
      ghost var writesBefore := statusWrites;
      if cancelled {
        SetRequestStatus(requestID, ProgressStatusFailed);
      } else {
        assert statusWrites + [] == statusWrites;
      }
      assert statusWrites == writesBefore + cancel;
      SetRequestStatus(requestID, ProgressStatusComplete);
      SeqAssoc(old(statusWrites), progress, cancel);
      SeqAssoc(old(statusWrites), progress + cancel, [last]);
      AppliedSnoc(old(requests), progress, cancel, last);
    }

    /** buildIndex: discovery, then 10, then the deleted files are listed
        and removed, then 20, then the build; a failure of any of the first
        three steps writes -1 and stops. `entries` is the walk, `keys` and
        `present` feed getDeletedFiles, `deleteDocuments` and `indexer` are
        the indexer's answers. When the walk callback panics on an entry
        without file info, the process ends and nothing further is written. */
    method BuildIndex(rootPath: string, excludeFolders: seq<string>, requestID: string, entries: seq<WalkEntry>,
                      keys: Result<seq<string>, string>, present: string -> bool,
                      deleteDocuments: seq<string> -> Option<string>, indexTime: int, cancelled: bool,
                      open: string -> Result<Source, string>, indexer: seq<Document> -> bool)
      modifies this
      ensures var walk := WalkFrom(rootPath, (set f | f in excludeFolders), entries, 0, None, LookupIn(old(files)), false);
              walk.2 ==> statusWrites == old(statusWrites) && requests == old(requests) && files == old(files)
      ensures var walk := WalkFrom(rootPath, (set f | f in excludeFolders), entries, 0, None, LookupIn(old(files)), false);
              !walk.2 && walk.1.Some? ==>
                && statusWrites == old(statusWrites) + [(requestID, ProgressStatusFailed)]
                && requests == Applied(old(requests), [(requestID, ProgressStatusFailed)])
                && files == old(files)
      ensures var walk := WalkFrom(rootPath, (set f | f in excludeFolders), entries, 0, None, LookupIn(old(files)), false);
              !walk.2 && walk.1.None? ==>
                && statusWrites == old(statusWrites) + [(requestID, ProgressStatusStep1)]
                                   + CleanWrites(requestID, walk.0, keys, present, deleteDocuments, cancelled, open, indexer)
                && requests == Applied(old(requests), [(requestID, ProgressStatusStep1)]
                                       + CleanWrites(requestID, walk.0, keys, present, deleteDocuments, cancelled, open, indexer))
                && files == CleanRecorded(old(files), walk.0, keys, present, deleteDocuments, indexTime, open, indexer)
    {
      var found, err, panicked := DiscoverModifiedFiles(rootPath, excludeFolders, entries, LookupIn(files));
      if panicked {
        return;
      }
      if err.Some? {
        SetRequestStatus(requestID, ProgressStatusFailed);
        return;
      }
      SetRequestStatus(requestID, ProgressStatusStep1);
      ghost var writesBefore := statusWrites;
      CleanAndBuild(requestID, found, keys, present, deleteDocuments, indexTime, cancelled, open, indexer);
      SeqAssoc(old(statusWrites), [(requestID, ProgressStatusStep1)],
               CleanWrites(requestID, found, keys, present, deleteDocuments, cancelled, open, indexer));
      AppliedAppend(old(requests), [(requestID, ProgressStatusStep1)],
                    CleanWrites(requestID, found, keys, present, deleteDocuments, cancelled, open, indexer));
    }

    /** The rest of buildIndex once the modified files are found: the
        deleted files are listed and removed, then 20, then the build; a
        failure of either of the first two steps writes -1 and stops. */
    method CleanAndBuild(requestID: string, found: seq<FileInfo>, keys: Result<seq<string>, string>, present: string -> bool,
                         deleteDocuments: seq<string> -> Option<string>, indexTime: int, cancelled: bool,
                         open: string -> Result<Source, string>, indexer: seq<Document> -> bool)
      modifies this
      ensures statusWrites == old(statusWrites) + CleanWrites(requestID, found, keys, present, deleteDocuments, cancelled, open, indexer)
      ensures requests == Applied(old(requests), CleanWrites(requestID, found, keys, present, deleteDocuments, cancelled, open, indexer))
      ensures files == CleanRecorded(old(files), found, keys, present, deleteDocuments, indexTime, open, indexer)
    {
      var deleted := GetDeletedFiles(keys, present);
      if deleted.Err? {
        assert !CleanOk(keys, present, deleteDocuments);
        SetRequestStatus(requestID, ProgressStatusFailed);
        return;
      }
      assert deleted.value == Missing(keys.value, present);
      if deleted.value == [] {
        assert Removed(old(files), deleted.value) == old(files);
      }
      var removal := RemoveDeletedFiles(deleted.value, deleteDocuments);
      if removal.Fail? {
        assert !CleanOk(keys, present, deleteDocuments);
        SetRequestStatus(requestID, ProgressStatusFailed);
        return;
      }
      assert CleanOk(keys, present, deleteDocuments);
      assert files == Removed(old(files), Missing(keys.value, present));
      SetRequestStatus(requestID, ProgressStatusStep2);
      DoBuildIndex(requestID, indexTime, found, cancelled, open, indexer);
      SeqAssoc(old(statusWrites), [(requestID, ProgressStatusStep2)], BuildWrites(requestID, found, cancelled, open, indexer));
      AppliedAppend(old(requests), [(requestID, ProgressStatusStep2)], BuildWrites(requestID, found, cancelled, open, indexer));
    }
  }

  /** The workers of doBuildIndex, one after another: each portion's batch
      results, in portion order. */
  method ProcessPortions(fileList: seq<FileInfo>, portions: seq<(nat, nat)>,
                         open: string -> Result<Source, string>, indexer: seq<Document> -> bool)
    returns (batches: seq<seq<FileInfo>>)
    requires InBounds(portions, |fileList|)
    ensures batches == AllBatches(fileList, portions, open, indexer)
  {
    batches := [];
    var k := 0;
    while k < |portions|
      invariant 0 <= k <= |portions|
      invariant InBounds(portions[k..], |fileList|)
      invariant batches + AllBatches(fileList, portions[k..], open, indexer) == AllBatches(fileList, portions, open, indexer)
    {
      var p := portions[k];
      assert portions[k..][1..] == portions[k + 1..];
      var b := ForFilesPortion(fileList[p.0..p.1], open, indexer);
      assert batches + AllBatches(fileList, portions[k..], open, indexer)
             == (batches + b) + AllBatches(fileList, portions[k + 1..], open, indexer);
      batches := batches + b;
      k := k + 1;
    }
    assert batches + [] == batches;
  }

  lemma {:induction false} WorkersAndPortion(n: nat, num: nat, per: nat)
    requires n > 0 && num == (if n < MaxGoRoutinesForFileProcessing then n else MaxGoRoutinesForFileProcessing)
    requires per == (if n / num == 0 then 1 else n / num)
    ensures num == Workers(n) && per == PortionSize(n)
  {
  }

  /** One worker of the partition loop, starting at `start`. */
  lemma {:induction false} PartitionFromUnfold(n: nat, num: nat, per: nat, i: nat, start: nat)
    requires i < num && start == i * per
    ensures PartitionFrom(n, num, per, i)
            == if start >= n then []
               else [(start, if i == num - 1 then n else start + per)] + PartitionFrom(n, num, per, i + 1)
  {
  }

  /** Recording two runs of files is recording them together. */
  lemma {:induction false} RecordedFilesAppend(m: map<string, FileMetadata>, a: seq<FileInfo>, b: seq<FileInfo>, indexTime: int)
    ensures RecordedFiles(RecordedFiles(m, a, indexTime), b, indexTime) == RecordedFiles(m, a + b, indexTime)
    decreases |a|
  {
    if a != [] {
      var m' := if a[0].path != [] then m[a[0].path := FileMetadata(indexTime)] else m;
      assert (a + b)[0] == a[0] && (a + b)[1..] == a[1..] + b;
      assert RecordedFiles(m, a + b, indexTime) == RecordedFiles(m', a[1..] + b, indexTime);
      assert RecordedFiles(m, a, indexTime) == RecordedFiles(m', a[1..], indexTime);
      RecordedFilesAppend(m', a[1..], b, indexTime);
    } else {
      assert a + b == b;
    }
  }

  /** The invariant of updateMetadata's loop with `pending` batches still
      to receive and `count` updates made: recording and writing what is
      pending, on top of the current state, gives the final state
      (`filesT`, `writesT`, `requestsT`). */
  ghost predicate MetadataLoop(filesT: map<string, FileMetadata>, writesT: seq<(string, int)>, requestsT: map<string, string>,
                               files: map<string, FileMetadata>, writes: seq<(string, int)>, requests: map<string, string>,
                               requestID: string, indexTime: int, total: nat, pending: seq<seq<FileInfo>>, count: nat)
  {
    && RecordedBatches(files, pending, indexTime) == filesT
    && writes + ProgressWrites(requestID, pending, count, total) == writesT
    && Applied(requests, ProgressWrites(requestID, pending, count, total)) == requestsT
  }

  /** One batch received: its files recorded and its progress written. */
  lemma {:induction false} MetadataLoopStep(filesT: map<string, FileMetadata>, writesT: seq<(string, int)>,
                                            requestsT: map<string, string>,
                                            files: map<string, FileMetadata>, writes: seq<(string, int)>, requests: map<string, string>,
                                            files': map<string, FileMetadata>, writes': seq<(string, int)>, requests': map<string, string>,
                                            requestID: string, indexTime: int, total: nat, pending: seq<seq<FileInfo>>, count: nat)
    requires pending != []
    requires MetadataLoop(filesT, writesT, requestsT, files, writes, requests, requestID, indexTime, total, pending, count)
    requires files' == RecordedFiles(files, pending[0], indexTime)
    requires writes' == writes + ReportWrites(requestID, count + NonEmptyPaths(pending[0]), total)
    requires requests' == Applied(requests, ReportWrites(requestID, count + NonEmptyPaths(pending[0]), total))
    ensures MetadataLoop(filesT, writesT, requestsT, files', writes', requests', requestID, indexTime, total, pending[1..],
                         count + NonEmptyPaths(pending[0]))
  {
    var c := count + NonEmptyPaths(pending[0]);
    var step := ReportWrites(requestID, c, total);
    var rest := ProgressWrites(requestID, pending[1..], c, total);
    assert ProgressWrites(requestID, pending, count, total) == step + rest;
    SeqAssoc(writes, step, rest);
    AppliedAppend(requests, step, rest);
  }

  /** Nothing pending: the state is the final state. */
  lemma {:induction false} MetadataLoopEnd(filesT: map<string, FileMetadata>, writesT: seq<(string, int)>,
                                           requestsT: map<string, string>,
                                           files: map<string, FileMetadata>, writes: seq<(string, int)>, requests: map<string, string>,
                                           requestID: string, indexTime: int, total: nat, count: nat)
    requires MetadataLoop(filesT, writesT, requestsT, files, writes, requests, requestID, indexTime, total, [], count)
    ensures files == filesT && writes == writesT && requests == requestsT
  {
    assert writes + [] == writes;
  }

  /** Recording batch after batch is recording their concatenation. */
  lemma {:induction false} RecordedBatchesFlatten(m: map<string, FileMetadata>, batches: seq<seq<FileInfo>>, indexTime: int)
    ensures RecordedBatches(m, batches, indexTime) == RecordedFiles(m, Flatten(batches), indexTime)
    decreases |batches|
  {
    if batches != [] {
      RecordedBatchesFlatten(RecordedFiles(m, batches[0], indexTime), batches[1..], indexTime);
      RecordedFilesAppend(m, batches[0], Flatten(batches[1..]), indexTime);
    }
  }



  /** Applying writes in two parts is applying them at once. */
  lemma {:induction false} AppliedAppend(requests: map<string, string>, a: seq<(string, int)>, b: seq<(string, int)>)
    ensures Applied(requests, a + b) == Applied(Applied(requests, a), b)
    decreases |a|
  {
    if a != [] {
      var r' := requests[a[0].0 := Itoa(a[0].1)];
      assert (a + b)[0] == a[0] && (a + b)[1..] == a[1..] + b;
      assert Applied(requests, a + b) == Applied(r', a[1..] + b);
      assert Applied(requests, a) == Applied(r', a[1..]);
      AppliedAppend(r', a[1..], b);
    } else {
      assert a + b == b;
    }
  }

  /** The requests bucket after the progress writes, an optional -1 and the
      final 100, written one after another. */
  lemma {:induction false} AppliedSnoc(requests: map<string, string>, progress: seq<(string, int)>,
                                       cancel: seq<(string, int)>, last: (string, int))
    requires |cancel| <= 1
    ensures Applied(Applied(requests, progress), cancel)[last.0 := Itoa(last.1)]
            == Applied(requests, progress + cancel + [last])
  {
    AppliedAppend(requests, progress, cancel);
    AppliedAppend(requests, progress + cancel, [last]);
  }
}
