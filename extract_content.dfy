/** Content extraction of services/index/extract_content.go: the document for
    a discovered file, with the text of a text file read through a capped
    reader in fixed-size chunks. */
module ExtractContent {
  import opened Wrappers
  import opened SearchModels
  import opened FileDiscovery

  /** The cap on the bytes read from one file (5 MiB). */
  const MaxContentExtractionSize: nat := 5 * 1024 * 1024

  /** The size of the pooled read buffer (64 KiB). */
  const ChunkSize: nat := 64 * 1024

  /** An opened file as a reader: the bytes it yields, and then either end
      of file (`error` is None) or the read error it reports. */
  datatype Source = Source(data: string, error: Option<string>)

  /** What one `Read` call on a reader returns besides the bytes. */
  datatype ReadEnd = More | Eof | Failed(message: string)

  function Min(a: int, b: int): int
  {
    if a <= b then a else b
  }

  /** What readTextContent returns for a reader: the read error when it is
      met before the cap is reached, and otherwise the bytes up to the cap. */
  function ReadResult(source: Source): Result<string, string>
  {
    if source.error.Some? && |source.data| < MaxContentExtractionSize then Err(source.error.value)
    else Ok(source.data[..Min(|source.data|, MaxContentExtractionSize)])
  }

  /** The content read is the input's prefix of length min(input, cap), in
      order; a reader that ends cleanly never fails, and a reader with more
      bytes than the cap never shows its error. */
  lemma {:induction false} ReadResultShape(source: Source)
    ensures ReadResult(source).Ok? ==>
              var content := ReadResult(source).value;
              && |content| == Min(|source.data|, MaxContentExtractionSize)
              && content <= source.data
    ensures source.error.None? ==> ReadResult(source).Ok?
    ensures |source.data| >= MaxContentExtractionSize ==>
              ReadResult(source) == Ok(source.data[..MaxContentExtractionSize])
    ensures ReadResult(source).Err? ==> source.error.Some? && ReadResult(source).error == source.error.value
  {
  }

  /** readTextContent: repeated reads of at most one chunk from the reader
      limited to the cap, each chunk appended to the buffer, until end of
      file (including the limit's own end) or an error. `fileSize` only sizes
      the buffer. */
  method ReadTextContent(source: Source, fileSize: int) returns (r: Result<string, string>)
    ensures r == ReadResult(source)
  {
    var capacityHint := if 0 < fileSize <= MaxContentExtractionSize as int then fileSize else MaxContentExtractionSize as int;
    var buffer: string := [];
    var remaining: int := MaxContentExtractionSize;
    var pos := 0;
    while true
      invariant 0 <= pos <= |source.data| && pos <= MaxContentExtractionSize
      invariant remaining == MaxContentExtractionSize - pos
      invariant buffer == source.data[..pos]
      decreases MaxContentExtractionSize - pos
    {
      // The limited reader: end of file once the cap is used up.
      var n: nat;
      var end: ReadEnd;
      if remaining <= 0 {
        n, end := 0, Eof;
      } else {
        n := Min(Min(ChunkSize, remaining), |source.data| - pos);
        end := if n > 0 then More else if source.error.Some? then Failed(source.error.value) else Eof;
      }
      if n > 0 {
        assert source.data[..pos + n] == source.data[..pos] + source.data[pos..pos + n];
        buffer := buffer + source.data[pos..pos + n];
        pos := pos + n;
        remaining := remaining - n;
      }
      if end == Eof {
        break;
      }
      if end.Failed? {
        return Err(end.message);
      }
    }
    return Ok(buffer);
  }

  /** The document for a file before its content is read. */
  function DocumentOf(file: FileInfo, content: string): Document
  {
    Document(file.path, file.path, file.name, content, file.size, file.modTime)
  }

  /** What extractContent returns: a text file is opened and read, any
      other file gets empty content and is never opened. */
  function ExtractResult(file: FileInfo, open: string -> Result<Source, string>): Result<Document, string>
  {
    if !file.isText then Ok(DocumentOf(file, []))
    else match open(file.path)
      case Err(e) => Err(e)
      case Ok(source) =>
        match ReadResult(source)
        case Err(e) => Err(e)
        case Ok(content) => Ok(DocumentOf(file, content))
  }

  /** The document's id and path are the file's path, its name, size and
      modification time are copied; a non-text file succeeds with empty
      content whatever `open` would do, and a text file fails exactly when
      opening or reading fails. */
  lemma {:induction false} ExtractResultShape(file: FileInfo, open: string -> Result<Source, string>)
    ensures ExtractResult(file, open).Ok? ==>
              var doc := ExtractResult(file, open).value;
              && doc.id == file.path && doc.path == file.path && doc.name == file.name
              && doc.size == file.size && doc.modTime == file.modTime
    ensures !file.isText ==> ExtractResult(file, open) == Ok(DocumentOf(file, []))
    ensures file.isText ==>
              (ExtractResult(file, open).Err? <==> open(file.path).Err? || ReadResult(open(file.path).value).Err?)
    ensures file.isText && ExtractResult(file, open).Ok? ==>
              ExtractResult(file, open).value.content <= open(file.path).value.data
              && |ExtractResult(file, open).value.content| <= MaxContentExtractionSize
  {
    if file.isText && open(file.path).Ok? {
      ReadResultShape(open(file.path).value);
    }
  }

  /** extractContent. */
  method Extract(file: FileInfo, open: string -> Result<Source, string>) returns (r: Result<Document, string>)
    ensures r == ExtractResult(file, open)
  {
    var doc := DocumentOf(file, []);
    if file.isText {
      var reader := open(file.path);
      if reader.Err? {
        return Err(reader.error);
      }
      var content := ReadTextContent(reader.value, file.size);
      if content.Err? {
        return Err(content.error);
      }
      doc := doc.(content := content.value);
    }
    return Ok(doc);
  }
}
