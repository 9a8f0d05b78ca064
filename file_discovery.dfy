/** File discovery of services/index/file_discovery.go: which files of a
    walk are handed to indexing. The walk itself (filepath.Walk) is given as
    the entries it visits, in order; times are abstract ordered numbers. */
module FileDiscovery {
  import opened Wrappers
  import opened Text
  import opened KvTypes
  import opened Seqs

  /** A file found by the walk. */
  datatype FileInfo = FileInfo(path: string, name: string, size: int, modTime: int, isText: bool)

  /** The stored metadata of an indexed file. */
  datatype FileMetadata = FileMetadata(lastIndexed: int)

  /** Why no metadata could be read: the store's error, or stored text that
      does not decode. */
  datatype LookupError = StoreError(error: KvError) | DecodeError(message: string)

  /** shouldFileBeIndexed: a file is indexed when its metadata cannot be
      read, whatever the reason, and otherwise when it was modified strictly
      after it was last indexed. */
  predicate ShouldFileBeIndexed(lookup: Result<FileMetadata, LookupError>, fileModTime: int)
  {
    lookup.Err? || fileModTime > lookup.value.lastIndexed
  }

  /** Every lookup error, not-found, invalid-key or any other, means the file
      is indexed; a known file is re-indexed iff it is newer than its last
      indexing. */
  lemma {:induction false} ShouldFileBeIndexedCases(lookup: Result<FileMetadata, LookupError>, fileModTime: int)
    ensures lookup.Err? ==> ShouldFileBeIndexed(lookup, fileModTime)
    ensures lookup.Ok? ==> (ShouldFileBeIndexed(lookup, fileModTime) <==> lookup.value.lastIndexed < fileModTime)
    ensures lookup.Ok? && fileModTime == lookup.value.lastIndexed ==> !ShouldFileBeIndexed(lookup, fileModTime)
  {
  }

  /** The extensions isTextFile of the indexing service accepts. */
  const TextExtensions: set<string> := {
    ".txt", ".md", ".go", ".js", ".py", ".java", ".cpp", ".c",
    ".html", ".css", ".json", ".xml", ".yaml", ".yml", ".ini", ".conf",
    ".doc", ".xlsx", ".docx", ".pptx", ".csv", ".tsv", ".sql", ".pdf", ".cs"
  }

  /** isTextFile: the lower-cased extension is in the table. */
  predicate IsTextFile(path: string)
  {
    ToLower(Ext(path)) in TextExtensions
  }

  /** The decision ignores the case of the path, and a path without an
      extension is never text. */
  lemma {:induction false} IsTextFileShape(path: string)
    ensures IsTextFile(ToLower(path)) == IsTextFile(path)
    ensures Ext(path) == [] ==> !IsTextFile(path)
  {
    LowerExtIgnoresCase(path);
    if Ext(path) == [] {
      assert ToLower(Ext(path)) == [];
    }
  }

  /** isInExcludedPath: exact membership in the set of excluded folders. */
  predicate IsInExcludedPath(currentPath: string, excludeSet: set<string>)
  {
    if |excludeSet| == 0 then false else currentPath in excludeSet
  }

  /** Exclusion is exact membership; no prefix of a listed folder and no
      folder below one is excluded by it. */
  lemma {:induction false} IsInExcludedPathIsMembership(currentPath: string, excludeSet: set<string>)
    ensures IsInExcludedPath(currentPath, excludeSet) <==> currentPath in excludeSet
    ensures excludeSet == {} ==> !IsInExcludedPath(currentPath, excludeSet)
  {
  }

  /** The error the walk reports for an entry, if any. */
  datatype WalkError = PermissionDenied | WalkFailed(message: string)

  /** An entry the walk visits. `WalkEntry` carries the file info: path,
      base name, whether it is a directory, size and modification time, and
      the error of listing a directory, if any, in which case no entries
      below that directory follow. `Unreadable` is an entry whose
      `Lstat` failed, so the callback receives the error and no file info
      (`info == nil`). */
  datatype WalkEntry =
    | WalkEntry(path: string, name: string, isDir: bool, size: int, modTime: int, error: Option<WalkError>)
    | Unreadable(path: string, failure: WalkError)

  /** The error the callback receives with an entry. */
  function ErrorOf(e: WalkEntry): Option<WalkError>
  {
    if e.Unreadable? then Some(e.failure) else e.error
  }

  /** What the walk callback does with an entry: abort with an error, crash
      on the missing file info, skip a directory's subtree, ignore the entry,
      or consider the file. */
  datatype Decision = Abort(error: string) | Crash | SkipDir | Ignore | Consider

  /** The walk callback's first part: an error other than a permission
      error aborts; past a permission error, an entry without file info makes
      `info.IsDir()` dereference nil; a hidden directory other than the root
      and an excluded directory are skipped with their subtrees; directories
      and hidden files produce nothing; any other file is considered. */
  function Decide(rootPath: string, excludeSet: set<string>, e: WalkEntry): (d: Decision)
    ensures d == Consider || d == SkipDir || d == Ignore ==> e.WalkEntry?
    ensures d == Crash <==> e.Unreadable? && e.failure == PermissionDenied
  {
    if ErrorOf(e).Some? && ErrorOf(e).value.WalkFailed? then Abort(ErrorOf(e).value.message)
    else if e.Unreadable? then Crash
    else if e.isDir && HasPrefix(e.name, ".") && e.path != rootPath then SkipDir
    else if e.isDir && IsInExcludedPath(e.path, excludeSet) then SkipDir
    else if e.isDir || HasPrefix(e.name, ".") then Ignore
    else Consider
  }

  /** Directories and hidden files are never considered; the root is never
      skipped for its name, and a non-root directory is skipped iff it is
      hidden or excluded (unless the walk failed on it); an entry without
      file info crashes exactly when its error is a permission error. */
  lemma {:induction false} DecideShape(rootPath: string, excludeSet: set<string>, e: WalkEntry)
    ensures Decide(rootPath, excludeSet, e) == Consider ==> e.WalkEntry? && !e.isDir && !HasPrefix(e.name, ".")
    ensures Decide(rootPath, excludeSet, e) == SkipDir ==> e.WalkEntry? && e.isDir
    ensures e.WalkEntry? && (e.error.None? || e.error == Some(PermissionDenied)) && e.isDir && e.path != rootPath ==>
              (Decide(rootPath, excludeSet, e) == SkipDir <==> HasPrefix(e.name, ".") || e.path in excludeSet)
    ensures ErrorOf(e).Some? && ErrorOf(e).value.WalkFailed? ==> Decide(rootPath, excludeSet, e) == Abort(ErrorOf(e).value.message)
    ensures e.Unreadable? ==> (Decide(rootPath, excludeSet, e) == Crash <==> e.failure == PermissionDenied)
  {
  }

  /** The entry for a considered file. */
  function FileInfoOf(e: WalkEntry): (f: FileInfo)
    requires e.WalkEntry?
  {
    FileInfo(e.path, e.name, e.size, e.modTime, IsTextFile(e.path))
  }

  /** `path` lies strictly below the directory `dir`. */
  predicate Below(path: string, dir: string)
  {
    HasPrefix(path, dir + "/")
  }

  /** The walk from entry `k` on, while the subtree of `skipped` (if any)
      is being passed over: the files produced, the error that ended the
      walk, and whether the callback crashed. `lookup` reads a file's stored
      metadata. With `skipUnreadable` an entry without file info and with a
      permission error is passed over, as evidently intended; without it the
      walk crashes there, as the code is written. */
  function WalkFrom(rootPath: string, excludeSet: set<string>, entries: seq<WalkEntry>, k: nat, skipped: Option<string>,
                    lookup: string -> Result<FileMetadata, LookupError>, skipUnreadable: bool): (r: (seq<FileInfo>, Option<string>, bool))
    requires k <= |entries|
    decreases |entries| - k
  {
    if k == |entries| then ([], None, false)
    else
      var e := entries[k];
      if skipped.Some? && Below(e.path, skipped.value) then WalkFrom(rootPath, excludeSet, entries, k + 1, skipped, lookup, skipUnreadable)
      else match Decide(rootPath, excludeSet, e)
        case Abort(err) => ([], Some(err), false)
        case Crash => if skipUnreadable then WalkFrom(rootPath, excludeSet, entries, k + 1, None, lookup, skipUnreadable) else ([], None, true)
        case SkipDir => WalkFrom(rootPath, excludeSet, entries, k + 1, Some(e.path), lookup, skipUnreadable)
        case Ignore => WalkFrom(rootPath, excludeSet, entries, k + 1, None, lookup, skipUnreadable)
        case Consider =>
          var rest := WalkFrom(rootPath, excludeSet, entries, k + 1, None, lookup, skipUnreadable);
          if ShouldFileBeIndexed(lookup(e.path), e.modTime) then ([FileInfoOf(e)] + rest.0, rest.1, rest.2) else rest
  }

  /** Entry `j` is a considered file that needs indexing, and `f` is its
      file info. */
  predicate ProducedAt(rootPath: string, excludeSet: set<string>, entries: seq<WalkEntry>, j: nat,
                       lookup: string -> Result<FileMetadata, LookupError>, f: FileInfo)
    requires j < |entries|
  {
    && Decide(rootPath, excludeSet, entries[j]) == Consider
    && ShouldFileBeIndexed(lookup(entries[j].path), entries[j].modTime)
    && f == FileInfoOf(entries[j])
  }

  /** Every file produced comes from a considered entry whose metadata
      says it needs indexing, with its fields copied and `IsText` set from
      its path. */
  lemma {:induction false} WalkFromProducesConsidered(rootPath: string, excludeSet: set<string>, entries: seq<WalkEntry>,
                                                      k: nat, skipped: Option<string>,
                                                      lookup: string -> Result<FileMetadata, LookupError>, skipUnreadable: bool)
    requires k <= |entries|
    ensures forall f :: f in WalkFrom(rootPath, excludeSet, entries, k, skipped, lookup, skipUnreadable).0 ==>
              exists j :: k <= j < |entries| && ProducedAt(rootPath, excludeSet, entries, j, lookup, f)
    decreases |entries| - k
  {
    if k < |entries| {
      var e := entries[k];
      var here := WalkFrom(rootPath, excludeSet, entries, k, skipped, lookup, skipUnreadable);
      if skipped.Some? && Below(e.path, skipped.value) {
        WalkFromProducesConsidered(rootPath, excludeSet, entries, k + 1, skipped, lookup, skipUnreadable);
        assert here == WalkFrom(rootPath, excludeSet, entries, k + 1, skipped, lookup, skipUnreadable);
      } else {
        var d := Decide(rootPath, excludeSet, e);
        if d == SkipDir {
          WalkFromProducesConsidered(rootPath, excludeSet, entries, k + 1, Some(e.path), lookup, skipUnreadable);
          assert here == WalkFrom(rootPath, excludeSet, entries, k + 1, Some(e.path), lookup, skipUnreadable);
        } else if d == Crash && skipUnreadable {
          WalkFromProducesConsidered(rootPath, excludeSet, entries, k + 1, None, lookup, skipUnreadable);
          assert here == WalkFrom(rootPath, excludeSet, entries, k + 1, None, lookup, skipUnreadable);
        } else if d == Ignore || d == Consider {
          WalkFromProducesConsidered(rootPath, excludeSet, entries, k + 1, None, lookup, skipUnreadable);
          var rest := WalkFrom(rootPath, excludeSet, entries, k + 1, None, lookup, skipUnreadable);
          if d == Consider && ShouldFileBeIndexed(lookup(e.path), e.modTime) {
            assert here.0 == [FileInfoOf(e)] + rest.0;
            forall f | f in here.0
              ensures exists j :: k <= j < |entries| && ProducedAt(rootPath, excludeSet, entries, j, lookup, f)
            {
              if f == FileInfoOf(e) {
                assert ProducedAt(rootPath, excludeSet, entries, k, lookup, f);
              } else {
                assert f in rest.0;
                var j :| k + 1 <= j < |entries| && ProducedAt(rootPath, excludeSet, entries, j, lookup, f);
              }
            }
          } else {
            assert here.0 == rest.0;
          }
        }
      }
    }
  }

  /** Nothing below a skipped directory is produced, up to the next entry
      outside it. */
  lemma {:induction false} SkippedSubtreeProducesNothing(rootPath: string, excludeSet: set<string>, entries: seq<WalkEntry>,
                                                         k: nat, dir: string,
                                                         lookup: string -> Result<FileMetadata, LookupError>, skipUnreadable: bool)
    requires k <= |entries| && forall j :: k <= j < |entries| ==> Below(entries[j].path, dir)
    ensures WalkFrom(rootPath, excludeSet, entries, k, Some(dir), lookup, skipUnreadable) == ([], None, false)
    decreases |entries| - k
  {
    if k < |entries| {
      SkippedSubtreeProducesNothing(rootPath, excludeSet, entries, k + 1, dir, lookup, skipUnreadable);
    }
  }

  /** The directory whose subtree is being passed over when the walk
      reaches entry `k`, read off the entries before it: a skipped directory
      starts one, entries below it keep it, and any other entry ends it. */
  function SkippedAt(rootPath: string, excludeSet: set<string>, entries: seq<WalkEntry>, k: nat): Option<string>
    requires k <= |entries|
  {
    if k == 0 then None
    else
      var prev := SkippedAt(rootPath, excludeSet, entries, k - 1);
      var e := entries[k - 1];
      if prev.Some? && Below(e.path, prev.value) then prev
      else if Decide(rootPath, excludeSet, e) == SkipDir then Some(e.path)
      else None
  }

  /** The walk callback is called on entry `j`: it does not lie below the
      directory being passed over. */
  predicate Reached(rootPath: string, excludeSet: set<string>, entries: seq<WalkEntry>, j: nat)
    requires j < |entries|
  {
    var skipped := SkippedAt(rootPath, excludeSet, entries, j);
    !(skipped.Some? && Below(entries[j].path, skipped.value))
  }

  /** Entry `j` is reached and carries an error other than a permission
      error. */
  predicate AbortsAt(rootPath: string, excludeSet: set<string>, entries: seq<WalkEntry>, j: nat)
    requires j < |entries|
  {
    Reached(rootPath, excludeSet, entries, j) && ErrorOf(entries[j]).Some? && ErrorOf(entries[j]).value.WalkFailed?
  }

  /** Entry `j` is reached, has no file info and carries a permission
      error. */
  predicate CrashesAt(rootPath: string, excludeSet: set<string>, entries: seq<WalkEntry>, j: nat)
    requires j < |entries|
  {
    Reached(rootPath, excludeSet, entries, j) && entries[j].Unreadable? && entries[j].failure == PermissionDenied
  }

  /** The walk ends at entry `j`: it aborts there, or, unless unreadable
      entries are passed over, it crashes there. */
  predicate StopsAt(rootPath: string, excludeSet: set<string>, entries: seq<WalkEntry>, j: nat, skipUnreadable: bool)
    requires j < |entries|
  {
    AbortsAt(rootPath, excludeSet, entries, j) || (!skipUnreadable && CrashesAt(rootPath, excludeSet, entries, j))
  }

  /** The message of the error an aborting entry carries. */
  function AbortMessage(e: WalkEntry): string
    requires ErrorOf(e).Some? && ErrorOf(e).value.WalkFailed?
  {
    ErrorOf(e).value.message
  }

  /** The files of the entries before `n` that are reached, considered and
      need indexing, in entry order. */
  function ProducedBefore(rootPath: string, excludeSet: set<string>, entries: seq<WalkEntry>, n: nat,
                          lookup: string -> Result<FileMetadata, LookupError>): seq<FileInfo>
    requires n <= |entries|
  {
    if n == 0 then []
    else
      var j := n - 1;
      ProducedBefore(rootPath, excludeSet, entries, j, lookup)
      + (if Reached(rootPath, excludeSet, entries, j) && Decide(rootPath, excludeSet, entries[j]) == Consider
            && ShouldFileBeIndexed(lookup(entries[j].path), entries[j].modTime)
         then [FileInfoOf(entries[j])] else [])
  }

  /** The walk from entry `k` on, in the state the entries before `k` leave
      it in. */
  function WalkAt(rootPath: string, excludeSet: set<string>, entries: seq<WalkEntry>, k: nat,
                  lookup: string -> Result<FileMetadata, LookupError>, skipUnreadable: bool): (seq<FileInfo>, Option<string>, bool)
    requires k <= |entries|
  {
    WalkFrom(rootPath, excludeSet, entries, k, SkippedAt(rootPath, excludeSet, entries, k), lookup, skipUnreadable)
  }

  /** The walk from entry `k` when `k` is passed over, aborts, crashes or is
      decided. */
  lemma {:induction false} WalkFromUnfold(rootPath: string, excludeSet: set<string>, entries: seq<WalkEntry>, k: nat,
                                          skipped: Option<string>, lookup: string -> Result<FileMetadata, LookupError>,
                                          skipUnreadable: bool)
    requires k < |entries|
    ensures var e := entries[k];
            var d := Decide(rootPath, excludeSet, e);
            var w := WalkFrom(rootPath, excludeSet, entries, k, skipped, lookup, skipUnreadable);
            if skipped.Some? && Below(e.path, skipped.value) then
              w == WalkFrom(rootPath, excludeSet, entries, k + 1, skipped, lookup, skipUnreadable)
            else if d.Abort? then w == ([], Some(d.error), false)
            else if d == Crash && !skipUnreadable then w == ([], None, true)
            else
              var rest := WalkFrom(rootPath, excludeSet, entries, k + 1, if d == SkipDir then Some(e.path) else None, lookup, skipUnreadable);
              var mine := if d == Consider && ShouldFileBeIndexed(lookup(e.path), e.modTime) then [FileInfoOf(e)] else [];
              w == (mine + rest.0, rest.1, rest.2)
  {
    var e := entries[k];
    var d := Decide(rootPath, excludeSet, e);
    var w := WalkFrom(rootPath, excludeSet, entries, k, skipped, lookup, skipUnreadable);
    if !(skipped.Some? && Below(e.path, skipped.value)) && !d.Abort? && !(d == Crash && !skipUnreadable) {
      var rest := WalkFrom(rootPath, excludeSet, entries, k + 1, if d == SkipDir then Some(e.path) else None, lookup, skipUnreadable);
      if d == Consider && ShouldFileBeIndexed(lookup(e.path), e.modTime) {
        assert w == ([FileInfoOf(e)] + rest.0, rest.1, rest.2);
      } else {
        assert w == rest;
        assert [] + rest.0 == rest.0;
      }
    }
  }

  /** One entry of the walk: an abort ends it with the entry's error, a
      crash ends it crashed; otherwise the files produced before `k`
      followed by the rest of the walk are those produced before `k + 1`
      followed by the walk from there, with the same ending. */
  lemma {:induction false} WalkAtStep(rootPath: string, excludeSet: set<string>, entries: seq<WalkEntry>, k: nat,
                                      lookup: string -> Result<FileMetadata, LookupError>, skipUnreadable: bool)
    requires k < |entries|
    ensures AbortsAt(rootPath, excludeSet, entries, k) ==>
              WalkAt(rootPath, excludeSet, entries, k, lookup, skipUnreadable) == ([], Some(AbortMessage(entries[k])), false)
    ensures !skipUnreadable && CrashesAt(rootPath, excludeSet, entries, k) ==>
              WalkAt(rootPath, excludeSet, entries, k, lookup, skipUnreadable) == ([], None, true)
    ensures !StopsAt(rootPath, excludeSet, entries, k, skipUnreadable) ==>
              var w := WalkAt(rootPath, excludeSet, entries, k, lookup, skipUnreadable);
              var w' := WalkAt(rootPath, excludeSet, entries, k + 1, lookup, skipUnreadable);
              && w.1 == w'.1 && w.2 == w'.2
              && ProducedBefore(rootPath, excludeSet, entries, k, lookup) + w.0
                 == ProducedBefore(rootPath, excludeSet, entries, k + 1, lookup) + w'.0
  {
    var before := ProducedBefore(rootPath, excludeSet, entries, k, lookup);
    var skipped := SkippedAt(rootPath, excludeSet, entries, k);
    var e := entries[k];
    var d := Decide(rootPath, excludeSet, e);
    var reached := Reached(rootPath, excludeSet, entries, k);
    var mine := if reached && d == Consider && ShouldFileBeIndexed(lookup(e.path), e.modTime) then [FileInfoOf(e)] else [];
    assert ProducedBefore(rootPath, excludeSet, entries, k + 1, lookup) == before + mine;
    WalkFromUnfold(rootPath, excludeSet, entries, k, skipped, lookup, skipUnreadable);
    if reached && !d.Abort? && !(d == Crash && !skipUnreadable) {
      var next := if d == SkipDir then Some(e.path) else None;
      assert SkippedAt(rootPath, excludeSet, entries, k + 1) == next;
      SeqAssoc(before, mine, WalkFrom(rootPath, excludeSet, entries, k + 1, next, lookup, skipUnreadable).0);
    } else if !reached {
      assert SkippedAt(rootPath, excludeSet, entries, k + 1) == skipped;
      assert WalkAt(rootPath, excludeSet, entries, k, lookup, skipUnreadable)
             == WalkAt(rootPath, excludeSet, entries, k + 1, lookup, skipUnreadable);
      assert mine == [] && before + mine == before;
    }
  }

  /** The first entry from `k` on where the walk ends, or the number of
      entries when it ends at none. */
  function FirstStop(rootPath: string, excludeSet: set<string>, entries: seq<WalkEntry>, k: nat, skipUnreadable: bool): (j: nat)
    requires k <= |entries|
    ensures k <= j <= |entries|
    ensures j < |entries| ==> StopsAt(rootPath, excludeSet, entries, j, skipUnreadable)
    ensures forall i :: k <= i < j ==> !StopsAt(rootPath, excludeSet, entries, i, skipUnreadable)
    decreases |entries| - k
  {
    if k == |entries| then k
    else if StopsAt(rootPath, excludeSet, entries, k, skipUnreadable) then k
    else FirstStop(rootPath, excludeSet, entries, k + 1, skipUnreadable)
  }

  /** What the walk from entry `k` on adds and how it ends: the files of the
      reached entries up to the first stop after those produced before `k`;
      that stop's error when it aborts, a crash when it crashes, and neither
      when there is no stop. */
  ghost predicate WalkAtMatches(rootPath: string, excludeSet: set<string>, entries: seq<WalkEntry>, k: nat,
                                lookup: string -> Result<FileMetadata, LookupError>, skipUnreadable: bool)
    requires k <= |entries|
  {
    var w := WalkAt(rootPath, excludeSet, entries, k, lookup, skipUnreadable);
    var stop := FirstStop(rootPath, excludeSet, entries, k, skipUnreadable);
    && (stop == |entries| ==> w.1.None? && !w.2)
    && (stop < |entries| && AbortsAt(rootPath, excludeSet, entries, stop) ==> w.1 == Some(AbortMessage(entries[stop])) && !w.2)
    && (stop < |entries| && !AbortsAt(rootPath, excludeSet, entries, stop) ==> w.1.None? && w.2)
    && ProducedBefore(rootPath, excludeSet, entries, k, lookup) + w.0
       == ProducedBefore(rootPath, excludeSet, entries, stop, lookup)
  }

  /** Past the last entry the walk adds nothing and ends without error. */
  lemma {:induction false} WalkAtMatchesAtEnd(rootPath: string, excludeSet: set<string>, entries: seq<WalkEntry>,
                                              lookup: string -> Result<FileMetadata, LookupError>, skipUnreadable: bool)
    ensures WalkAtMatches(rootPath, excludeSet, entries, |entries|, lookup, skipUnreadable)
  {
    var before := ProducedBefore(rootPath, excludeSet, entries, |entries|, lookup);
    assert WalkAt(rootPath, excludeSet, entries, |entries|, lookup, skipUnreadable) == ([], None, false);
    assert before + [] == before;
  }

  /** At an entry where the walk stops it adds nothing and ends there. */
  lemma {:induction false} WalkAtMatchesAtStop(rootPath: string, excludeSet: set<string>, entries: seq<WalkEntry>, k: nat,
                                               lookup: string -> Result<FileMetadata, LookupError>, skipUnreadable: bool)
    requires k < |entries| && StopsAt(rootPath, excludeSet, entries, k, skipUnreadable)
    ensures WalkAtMatches(rootPath, excludeSet, entries, k, lookup, skipUnreadable)
  {
    var before := ProducedBefore(rootPath, excludeSet, entries, k, lookup);
    WalkAtStep(rootPath, excludeSet, entries, k, lookup, skipUnreadable);
    assert FirstStop(rootPath, excludeSet, entries, k, skipUnreadable) == k;
    assert before + [] == before;
  }

  /** An entry where the walk does not stop passes the match on from the
      next entry. */
  lemma {:induction false} WalkAtMatchesAfterStep(rootPath: string, excludeSet: set<string>, entries: seq<WalkEntry>, k: nat,
                                                  lookup: string -> Result<FileMetadata, LookupError>, skipUnreadable: bool)
    requires k < |entries| && !StopsAt(rootPath, excludeSet, entries, k, skipUnreadable)
    requires WalkAtMatches(rootPath, excludeSet, entries, k + 1, lookup, skipUnreadable)
    ensures WalkAtMatches(rootPath, excludeSet, entries, k, lookup, skipUnreadable)
  {
    WalkAtStep(rootPath, excludeSet, entries, k, lookup, skipUnreadable);
    assert FirstStop(rootPath, excludeSet, entries, k, skipUnreadable) == FirstStop(rootPath, excludeSet, entries, k + 1, skipUnreadable);
  }

  /** The match at the next entry gives the match at this one. */
  lemma {:induction false} WalkAtMatchesBack(rootPath: string, excludeSet: set<string>, entries: seq<WalkEntry>, k: nat,
                                             lookup: string -> Result<FileMetadata, LookupError>, skipUnreadable: bool)
    requires k < |entries| && WalkAtMatches(rootPath, excludeSet, entries, k + 1, lookup, skipUnreadable)
    ensures WalkAtMatches(rootPath, excludeSet, entries, k, lookup, skipUnreadable)
  {
    if StopsAt(rootPath, excludeSet, entries, k, skipUnreadable) {
      WalkAtMatchesAtStop(rootPath, excludeSet, entries, k, lookup, skipUnreadable);
    } else {
      WalkAtMatchesAfterStep(rootPath, excludeSet, entries, k, lookup, skipUnreadable);
    }
  }

  /** The walk from every entry on matches the entries. */
  lemma {:induction false} WalkAtMatchesEntries(rootPath: string, excludeSet: set<string>, entries: seq<WalkEntry>, k: nat,
                                                lookup: string -> Result<FileMetadata, LookupError>, skipUnreadable: bool)
    requires k <= |entries|
    ensures WalkAtMatches(rootPath, excludeSet, entries, k, lookup, skipUnreadable)
    decreases |entries| - k
  {
    if k == |entries| {
      WalkAtMatchesAtEnd(rootPath, excludeSet, entries, lookup, skipUnreadable);
    } else {
      WalkAtMatchesEntries(rootPath, excludeSet, entries, k + 1, lookup, skipUnreadable);
      WalkAtMatchesBack(rootPath, excludeSet, entries, k, lookup, skipUnreadable);
    }
  }

  /** The whole walk: its files are those of the reached entries that are
      considered and need indexing, in walk order, up to the first reached
      entry where the walk stops. It stops at an entry with an error other
      than a permission error, and ends with that error; as written it also
      stops, crashed, at an entry without file info that has a permission
      error. It ends with neither an error nor a crash exactly when there is
      no such entry, and it never crashes when such entries are passed
      over. */
  lemma {:induction false} WalkCompleteInOrder(rootPath: string, excludeSet: set<string>, entries: seq<WalkEntry>,
                                               lookup: string -> Result<FileMetadata, LookupError>, skipUnreadable: bool)
    ensures var w := WalkFrom(rootPath, excludeSet, entries, 0, None, lookup, skipUnreadable);
            && (skipUnreadable ==> !w.2)
            && (w.1.None? && !w.2 <==> forall j :: 0 <= j < |entries| ==> !StopsAt(rootPath, excludeSet, entries, j, skipUnreadable))
            && (w.1.None? && !w.2 ==> w.0 == ProducedBefore(rootPath, excludeSet, entries, |entries|, lookup))
            && (w.1.Some? || w.2 ==>
                  exists j :: 0 <= j < |entries| && StopsAt(rootPath, excludeSet, entries, j, skipUnreadable)
                              && (forall i :: 0 <= i < j ==> !StopsAt(rootPath, excludeSet, entries, i, skipUnreadable))
                              && w.0 == ProducedBefore(rootPath, excludeSet, entries, j, lookup)
                              && (w.1.Some? <==> AbortsAt(rootPath, excludeSet, entries, j))
                              && (w.1.Some? ==> w.1 == Some(AbortMessage(entries[j])))
                              && (w.2 <==> CrashesAt(rootPath, excludeSet, entries, j)))
  {
    WalkAtMatchesEntries(rootPath, excludeSet, entries, 0, lookup, skipUnreadable);
    var w := WalkFrom(rootPath, excludeSet, entries, 0, None, lookup, skipUnreadable);
    assert WalkAt(rootPath, excludeSet, entries, 0, lookup, skipUnreadable) == w;
    assert ProducedBefore(rootPath, excludeSet, entries, 0, lookup) + w.0 == w.0;
    var stop := FirstStop(rootPath, excludeSet, entries, 0, skipUnreadable);
    assert w.0 == ProducedBefore(rootPath, excludeSet, entries, stop, lookup);
    if stop < |entries| {
      assert StopsAt(rootPath, excludeSet, entries, stop, skipUnreadable);
    }
  }

  /** As written, a file that cannot be stat'ed for lack of permission
      crashes the walk; with the evident intent it is passed over and the
      walk goes on to the file after it. */
  lemma {:induction false} AsWrittenCrashesOnUnreadable(lookup: string -> Result<FileMetadata, LookupError>)
    ensures var entries := [Unreadable("/r/a.txt", PermissionDenied), WalkEntry("/r/b", "b", false, 1, 5, None)];
            && WalkFrom("/r", {}, entries, 0, None, lookup, false) == ([], None, true)
            && (ShouldFileBeIndexed(lookup("/r/b"), 5) ==>
                  WalkFrom("/r", {}, entries, 0, None, lookup, true) == ([FileInfoOf(entries[1])], None, false))
  {
    var entries := [Unreadable("/r/a.txt", PermissionDenied), WalkEntry("/r/b", "b", false, 1, 5, None)];
    assert Decide("/r", {}, entries[0]) == Crash;
    assert "b"[..1][0] != '.';
    assert Decide("/r", {}, entries[1]) == Consider;
    var last := WalkFrom("/r", {}, entries, 2, None, lookup, true);
    assert last == ([], None, false);
    var second := WalkFrom("/r", {}, entries, 1, None, lookup, true);
    if ShouldFileBeIndexed(lookup("/r/b"), 5) {
      assert second == ([FileInfoOf(entries[1])] + last.0, last.1, last.2);
      assert [FileInfoOf(entries[1])] + last.0 == [FileInfoOf(entries[1])];
    }
    assert WalkFrom("/r", {}, entries, 0, None, lookup, true) == second;
  }

  /** With the evident intent the walk never crashes: it ends with an error
      exactly when a reached entry carries an error other than a permission
      error, and otherwise returns every reached file that needs indexing,
      in walk order. */
  lemma {:induction false} IntendedWalkNeverCrashes(rootPath: string, excludeSet: set<string>, entries: seq<WalkEntry>,
                                                    lookup: string -> Result<FileMetadata, LookupError>)
    ensures var w := WalkFrom(rootPath, excludeSet, entries, 0, None, lookup, true);
            && !w.2
            && (w.1.None? <==> forall j :: 0 <= j < |entries| ==> !AbortsAt(rootPath, excludeSet, entries, j))
            && (w.1.None? ==> w.0 == ProducedBefore(rootPath, excludeSet, entries, |entries|, lookup))
  {
    WalkCompleteInOrder(rootPath, excludeSet, entries, lookup, true);
    assert forall j :: 0 <= j < |entries| ==>
             (StopsAt(rootPath, excludeSet, entries, j, true) <==> AbortsAt(rootPath, excludeSet, entries, j));
  }

  /** discoverModifiedFiles: the exclude set built from the list, then
      each visited entry decided in walk order. The files found before an
      aborting error are returned with it. An entry without file info that
      passes the permission check crashes the callback on `info.IsDir()`;
      `panicked` reports that, and in Go no result is returned as the panic
      ends the process. */
  method DiscoverModifiedFiles(rootPath: string, excludeFolders: seq<string>, entries: seq<WalkEntry>,
                               lookup: string -> Result<FileMetadata, LookupError>)
    returns (modifiedFiles: seq<FileInfo>, err: Option<string>, panicked: bool)
    ensures (modifiedFiles, err, panicked) == WalkFrom(rootPath, (set f | f in excludeFolders), entries, 0, None, lookup, false)
  {
    var excludeSet: set<string> := {};
    var j := 0;
    while j < |excludeFolders|
      invariant 0 <= j <= |excludeFolders|
      invariant excludeSet == set f | f in excludeFolders[..j]
    {
      excludeSet := excludeSet + {excludeFolders[j]};
      assert excludeFolders[..j + 1] == excludeFolders[..j] + [excludeFolders[j]];
      j := j + 1;
    }
    assert excludeFolders[..j] == excludeFolders;
    assert excludeSet == set f | f in excludeFolders;
    modifiedFiles := [];
    var skipped: Option<string> := None;
    var k := 0;
    assert modifiedFiles + WalkFrom(rootPath, excludeSet, entries, 0, None, lookup, false).0
           == WalkFrom(rootPath, excludeSet, entries, 0, None, lookup, false).0;
    while k < |entries|
      invariant 0 <= k <= |entries|
      invariant var rest := WalkFrom(rootPath, excludeSet, entries, k, skipped, lookup, false);
                WalkFrom(rootPath, excludeSet, entries, 0, None, lookup, false) == (modifiedFiles + rest.0, rest.1, rest.2)
    {
      var e := entries[k];
      ghost var here := WalkFrom(rootPath, excludeSet, entries, k, skipped, lookup, false);
      if skipped.Some? && Below(e.path, skipped.value) {
        assert here == WalkFrom(rootPath, excludeSet, entries, k + 1, skipped, lookup, false);
        k := k + 1;
        continue;
      }
      var d := Decide(rootPath, excludeSet, e);
      if d.Abort? {
        assert here == ([], Some(d.error), false);
        assert modifiedFiles + [] == modifiedFiles;
        return modifiedFiles, Some(d.error), false;
      }
      if d == Crash {
        assert here == ([], None, true);
        assert modifiedFiles + [] == modifiedFiles;
        return modifiedFiles, None, true;
      }
      if d == SkipDir {
        assert here == WalkFrom(rootPath, excludeSet, entries, k + 1, Some(e.path), lookup, false);
        skipped := Some(e.path);
      } else {
        ghost var rest := WalkFrom(rootPath, excludeSet, entries, k + 1, None, lookup, false);
        skipped := None;
        if d == Consider && ShouldFileBeIndexed(lookup(e.path), e.modTime) {
          assert here == ([FileInfoOf(e)] + rest.0, rest.1, rest.2);
          SeqAssoc(modifiedFiles, [FileInfoOf(e)], rest.0);
          modifiedFiles := modifiedFiles + [FileInfoOf(e)];
        } else {
          assert here == rest;
        }
      }
      k := k + 1;
    }
    assert modifiedFiles + [] == modifiedFiles;
    return modifiedFiles, None, false;
  }
}
