/** The index endpoints of api/handlers/index.go: POST /index starts a build
    and GET /index/:request_id reports a build's status. Binding the request
    is an input (`None` when the body or the URL does not bind), `pathExists`
    stands for os.Stat, `isUUID` for the library's uuid rule, `newID` for the
    fresh UUID and `workerIdle` for whether the build worker takes the
    request. */
module HandlersIndex {
  import opened Wrappers
  import opened Text
  import opened Decimal
  import opened Http
  import opened Validation
  import opened IndexService

  datatype IndexRequest = IndexRequest(path: string, excludeFolders: seq<string>)

  datatype IndexResponse = IndexResponse(requestID: string)

  datatype IndexStatusResponse = IndexStatusResponse(status: int, requestID: string)

  const BindBodyFailed: string := "failed to extract request body parameters"
  const BindURLFailed: string := "failed to extract URL parameters"
  const SameAsIndexPath: string := "path to exclude cannot be the same as index path"
  const NotUnderIndexPath: string := "path to exclude must begin with the index path"
  const BuildRefused: string :=
    "failed to start indexing, possibly because another indexing operation is in progress"
  const RequestNotFoundMessage: string := "request not found"

  const TagUUID: string := "uuid"

  /** What the validator reports for an IndexRequest: `path` is checked
      with `required` (not empty) and then `valid_path`. `text` is the
      library's own error text. */
  function IndexRequestCheck(request: IndexRequest, pathExists: string -> bool, text: string): StructCheck
  {
    if request.path == [] then FieldErrors([FieldError(TagRequired, ReportedName("path", "Path"))], text)
    else if !IsValidPath(request.path, pathExists) then FieldErrors([FieldError(TagValidPath, ReportedName("path", "Path"))], text)
    else Passed
  }

  /** What the validator reports for an IndexStatusRequest: `ID` (no json
      tag) is checked with `required` and then `uuid`. */
  function StatusRequestCheck(id: string, isUUID: string -> bool, text: string): StructCheck
  {
    if id == [] then FieldErrors([FieldError(TagRequired, ReportedName("", "ID"))], text)
    else if !isUUID(id) then FieldErrors([FieldError(TagUUID, ReportedName("", "ID"))], text)
    else Passed
  }

  /** An exclude path is acceptable when it differs from the index path
      and starts with it. */
  predicate Acceptable(path: string, exclude: string)
  {
    exclude != path && HasPrefix(exclude, path)
  }

  /** The error for an unacceptable exclude path. */
  function ExcludeMessage(path: string, exclude: string): string
  {
    if exclude == path then SameAsIndexPath else NotUnderIndexPath
  }

  /** semanticallyValidateExcludePaths: the entries are checked in order and
      the first offender's error is returned. */
  function ExcludePathsError(path: string, excludes: seq<string>): Option<string>
  {
    if excludes == [] then None
    else if excludes[0] == path then Some(SameAsIndexPath)
    else if !HasPrefix(excludes[0], path) then Some(NotUnderIndexPath)
    else ExcludePathsError(path, excludes[1..])
  }

  /** No error exactly when every entry is acceptable (so always for an
      empty list); otherwise the error is that of the first unacceptable
      entry. */
  lemma {:induction false} ExcludePathsErrorFirst(path: string, excludes: seq<string>)
    ensures ExcludePathsError(path, excludes).None? <==> forall k :: 0 <= k < |excludes| ==> Acceptable(path, excludes[k])
    ensures ExcludePathsError(path, excludes).Some? ==>
              exists k :: 0 <= k < |excludes| && !Acceptable(path, excludes[k])
                          && (forall j :: 0 <= j < k ==> Acceptable(path, excludes[j]))
                          && ExcludePathsError(path, excludes) == Some(ExcludeMessage(path, excludes[k]))
    decreases |excludes|
  {
    if excludes != [] && Acceptable(path, excludes[0]) {
      var rest := excludes[1..];
      ExcludePathsErrorFirst(path, rest);
      assert forall k :: 1 <= k < |excludes| ==> excludes[k] == rest[k - 1];
      if ExcludePathsError(path, rest).Some? {
        var k :| 0 <= k < |rest| && !Acceptable(path, rest[k])
                 && (forall j :: 0 <= j < k ==> Acceptable(path, rest[j]))
                 && ExcludePathsError(path, rest) == Some(ExcludeMessage(path, rest[k]));
        assert excludes[k + 1] == rest[k];
        assert forall j :: 0 <= j < k + 1 ==> Acceptable(path, excludes[j]) by {
          forall j | 0 <= j < k + 1
            ensures Acceptable(path, excludes[j])
          {
            if j > 0 {
              assert excludes[j] == rest[j - 1];
            }
          }
        }
      }
    }
  }

  /** getResponseStatusFromServiceStatus: 200 exactly for a finished build,
      500 exactly for a failed one, 202 for every other status. */
  function ResponseStatusFromServiceStatus(status: int): (r: int)
    ensures r == StatusOK <==> status == ProgressStatusComplete
    ensures r == StatusInternalServerError <==> status == ProgressStatusFailed
    ensures r == StatusAccepted <==> status != ProgressStatusComplete && status != ProgressStatusFailed
  {
    var responseStatus := if status == ProgressStatusComplete then StatusOK else StatusAccepted;
    if status == ProgressStatusFailed then StatusInternalServerError else responseStatus
  }

  /** The request passes the validator and the exclude-path check, and so
      reaches the service's Build. */
  predicate ReachesBuild(bound: Option<IndexRequest>, pathExists: string -> bool, text: string)
  {
    && bound.Some?
    && Message(IndexRequestCheck(bound.value, pathExists, text), CustomTagErrors()).None?
    && ExcludePathsError(bound.value.path, bound.value.excludeFolders).None?
  }

  /** handleCreateIndex's reply. */
  function CreateIndexReply(bound: Option<IndexRequest>, pathExists: string -> bool, text: string,
                            newID: string, workerIdle: bool): Reply<IndexResponse>
  {
    if bound.None? then Failure(StatusUnprocessableEntity, BindBodyFailed)
    else
      var message := Message(IndexRequestCheck(bound.value, pathExists, text), CustomTagErrors());
      if message.Some? then Failure(StatusNotAcceptable, message.value)
      else
        var excludeError := ExcludePathsError(bound.value.path, bound.value.excludeFolders);
        if excludeError.Some? then Failure(StatusNotAcceptable, excludeError.value)
        else if !workerIdle then Failure(StatusConflict, BuildRefused)
        else Success(StatusAccepted, IndexResponse(newID))
  }

  /** The order of handleCreateIndex's decisions: a request that does not
      bind is 422; an empty path, an invalid path or an unacceptable exclude
      path is 406 with the matching message; a busy worker is 409; and
      otherwise the reply is 202 carrying the new request id. */
  lemma {:induction false} CreateIndexOrder(bound: Option<IndexRequest>, pathExists: string -> bool, text: string,
                                            newID: string, workerIdle: bool)
    ensures var r := CreateIndexReply(bound, pathExists, text, newID, workerIdle);
            && (r.status == StatusUnprocessableEntity <==> bound.None?)
            && (r.status == StatusNotAcceptable <==>
                  bound.Some? && (!IsValidPath(bound.value.path, pathExists) || bound.value.path == []
                                  || exists k :: 0 <= k < |bound.value.excludeFolders|
                                                 && !Acceptable(bound.value.path, bound.value.excludeFolders[k])))
            && (r.status == StatusConflict <==> ReachesBuild(bound, pathExists, text) && !workerIdle)
            && (r.status == StatusAccepted <==> ReachesBuild(bound, pathExists, text) && workerIdle)
            && (r.status == StatusAccepted ==> r.data == Some(IndexResponse(newID)) && r.errors == [])
            && (r.status != StatusAccepted ==> r.data.None? && |r.errors| == 1)
    ensures bound.Some? && bound.value.path == [] ==>
              CreateIndexReply(bound, pathExists, text, newID, workerIdle).errors == [RequiredMessage("path")]
    ensures bound.Some? && bound.value.path != [] && !IsValidPath(bound.value.path, pathExists) ==>
              CreateIndexReply(bound, pathExists, text, newID, workerIdle).errors == [InvalidPathError]
  {
    if bound.Some? {
      var check := IndexRequestCheck(bound.value, pathExists, text);
      MessageShape(check);
      ReportedNameOfPlainTag("path", "Path");
      assert check.Passed? <==> bound.value.path != [] && IsValidPath(bound.value.path, pathExists);
      ExcludePathsErrorFirst(bound.value.path, bound.value.excludeFolders);
    }
  }

  /** The request cases of the handler's tests: no body, an empty path, and
      a relative path. */
  lemma {:induction false} CreateIndexExamples(pathExists: string -> bool, text: string, newID: string, workerIdle: bool)
    ensures CreateIndexReply(None, pathExists, text, newID, workerIdle).status == StatusUnprocessableEntity
    ensures CreateIndexReply(Some(IndexRequest("", [])), pathExists, text, newID, workerIdle)
            == Failure(StatusNotAcceptable, "missing required field 'path'")
    ensures CreateIndexReply(Some(IndexRequest("./abc", [])), pathExists, text, newID, workerIdle)
            == Failure(StatusNotAcceptable, "invalid path")
  {
    ReportedNameOfPlainTag("path", "Path");
    assert RequiredMessage("path") == "missing required field 'path'";
    assert !IsValidPath("./abc", pathExists);
  }

  /** The status GetStatus reads for `id` from the requests bucket. */
  function StoredStatus(requests: map<string, string>, id: string): Result<int, StatusError>
  {
    if id !in requests then Err(RequestNotFound)
    else
      var parsed := Atoi(requests[id]);
      if parsed.None? then Err(InvalidStatusValue(requests[id])) else Ok(parsed.value)
  }

  /** handleGetIndexStatus's reply, from the requests bucket. */
  function GetStatusReply(bound: Option<string>, isUUID: string -> bool, text: string,
                          requests: map<string, string>): Reply<IndexStatusResponse>
  {
    if bound.None? then Failure(StatusUnprocessableEntity, BindURLFailed)
    else
      var message := Message(StatusRequestCheck(bound.value, isUUID, text), CustomTagErrors());
      if message.Some? then Failure(StatusNotAcceptable, message.value)
      else
        var status := StoredStatus(requests, bound.value);
        if status.Err? then Failure(StatusNotFound, RequestNotFoundMessage)
        else Reply(ResponseStatusFromServiceStatus(status.value), Some(IndexStatusResponse(status.value, bound.value)), [])
  }

  /** The order of handleGetIndexStatus's decisions: 422 when the URL does
      not bind, 406 for an id that is empty or not a UUID, 404 for an id
      with no readable status, and otherwise the status read back, with the
      HTTP status it maps to. A status written by setRequestStatus is the
      one reported. */
  lemma {:induction false} GetStatusOrder(bound: Option<string>, isUUID: string -> bool, text: string,
                                          requests: map<string, string>)
    ensures var r := GetStatusReply(bound, isUUID, text, requests);
            && (r.status == StatusUnprocessableEntity <==> bound.None?)
            && (r.status == StatusNotAcceptable <==> bound.Some? && (bound.value == [] || !isUUID(bound.value)))
            && (r.status == StatusNotFound <==>
                  bound.Some? && bound.value != [] && isUUID(bound.value)
                  && (bound.value !in requests || Atoi(requests[bound.value]).None?))
            && (r.data.Some? <==> r.status in {StatusOK, StatusAccepted, StatusInternalServerError})
    ensures forall s :: bound.Some? && bound.value != [] && isUUID(bound.value) && MinInt64 <= s <= MaxInt64
                        && bound.value in requests && requests[bound.value] == Itoa(s) ==>
              GetStatusReply(bound, isUUID, text, requests)
              == Reply(ResponseStatusFromServiceStatus(s), Some(IndexStatusResponse(s, bound.value)), [])
  {
    if bound.Some? {
      MessageShape(StatusRequestCheck(bound.value, isUUID, text));
      forall s | MinInt64 <= s <= MaxInt64 && bound.value in requests && requests[bound.value] == Itoa(s)
        ensures Atoi(requests[bound.value]) == Some(s)
      {
        ItoaAtoiRoundTrip(s);
      }
    }
  }

  /** handleCreateIndex: validation, the exclude-path check, then the
      service's Build, which marks the request queued and hands it to an
      idle worker. A request that stops earlier leaves the service as it
      was. */
  method HandleCreateIndex(service: Service, validator: Validator, bound: Option<IndexRequest>,
                           pathExists: string -> bool, text: string, newID: string, workerIdle: bool)
    returns (reply: Reply<IndexResponse>)
    requires validator.Valid()
    modifies service`requests, service`statusWrites, validator`tagErrors, validator`detailsFilled
    ensures validator.Valid()
    ensures reply == CreateIndexReply(bound, pathExists, text, newID, workerIdle)
    ensures ReachesBuild(bound, pathExists, text) ==>
              && service.requests == old(service.requests)[newID := Itoa(ProgressStatusQueued)]
              && service.statusWrites == old(service.statusWrites) + [(newID, ProgressStatusQueued)]
    ensures !ReachesBuild(bound, pathExists, text) ==>
              service.requests == old(service.requests) && service.statusWrites == old(service.statusWrites)
  {
    if bound.None? {
      return Failure(StatusUnprocessableEntity, BindBodyFailed);
    }
    var request := bound.value;
    var message := validator.Validate(IndexRequestCheck(request, pathExists, text));
    if message.Some? {
      return Failure(StatusNotAcceptable, message.value);
    }
    var excludeError := ExcludePathsError(request.path, request.excludeFolders);
    if excludeError.Some? {
      return Failure(StatusNotAcceptable, excludeError.value);
    }
    var requestID := newID;
    var built := service.Build(requestID, workerIdle);
    if built.Fail? {
      return Failure(StatusConflict, BuildRefused);
    }
    return Success(StatusAccepted, IndexResponse(requestID));
  }

  /** handleGetIndexStatus: validation, then the service's GetStatus. */
  method HandleGetIndexStatus(service: Service, validator: Validator, bound: Option<string>,
                              isUUID: string -> bool, text: string)
    returns (reply: Reply<IndexStatusResponse>)
    requires validator.Valid()
    modifies validator`tagErrors, validator`detailsFilled
    ensures validator.Valid()
    ensures reply == GetStatusReply(bound, isUUID, text, service.requests)
  {
    if bound.None? {
      return Failure(StatusUnprocessableEntity, BindURLFailed);
    }
    var id := bound.value;
    var message := validator.Validate(StatusRequestCheck(id, isUUID, text));
    if message.Some? {
      return Failure(StatusNotAcceptable, message.value);
    }
    var status := service.GetStatus(id);
    if status.Err? {
      return Failure(StatusNotFound, RequestNotFoundMessage);
    }
    return Reply(ResponseStatusFromServiceStatus(status.value), Some(IndexStatusResponse(status.value, id)), []);
  }
}
