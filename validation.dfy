/** The request validator of validation/validation.go: the custom `valid_path`
    and `valid_query` rules, the field names taken from json tags, and the
    mapping from the first failed rule to the message the handlers return.
    The rule engine of the validator library is not modelled: what it reports
    for a request is an input (`StructCheck`). */
module Validation {
  import opened Wrappers
  import opened Text

  const TagValidPath: string := "valid_path"
  const TagValidQuery: string := "valid_query"
  const TagRequired: string := "required"
  const TagMin: string := "min"
  const TagMax: string := "max"

  const InvalidPathError: string := "invalid path"
  const InvalidQueryError: string := "invalid query"

  /** The custom tags in the order the model registers them. */
  const CustomTags: seq<string> := [TagValidPath, TagValidQuery]

  /** One failed rule: its tag and the name of the field it failed on. */
  datatype FieldError = FieldError(tag: string, field: string)

  /** What the library's struct check reports: success, the failed rules in
      field order together with the error's own text, or an error of
      another kind with its text. */
  datatype StructCheck = Passed | FieldErrors(errors: seq<FieldError>, text: string) | OtherError(text: string)

  /** The table getTagValidationDetails fills: each custom tag's error. */
  function CustomTagErrors(): map<string, string>
  {
    map[TagValidPath := InvalidPathError, TagValidQuery := InvalidQueryError]
  }

  function RequiredMessage(field: string): string
  {
    "missing required field '" + field + "'"
  }

  function RangeMessage(field: string): string
  {
    "value or length of field '" + field + "' is not in the expected range"
  }

  /** Validate's message for a struct check, given the custom-tag table. */
  function Message(check: StructCheck, custom: map<string, string>): Option<string>
  {
    match check
    case Passed => None
    case OtherError(text) => Some(text)
    case FieldErrors(errors, text) =>
      if errors == [] then Some(text)
      else
        var first := errors[0];
        if first.tag in custom then Some(custom[first.tag])
        else if first.tag == TagRequired then Some(RequiredMessage(first.field))
        else if first.tag == TagMin || first.tag == TagMax then Some(RangeMessage(first.field))
        else Some(text)
  }

  /** Validate reports a message exactly when the check failed, and only the
      first failed rule decides it: a custom tag gives its fixed error,
      "required" the missing-field message, "min" and "max" the range
      message, and any other tag the library's own text. */
  lemma {:induction false} MessageShape(check: StructCheck)
    ensures Message(check, CustomTagErrors()).None? <==> check.Passed?
    ensures check.OtherError? ==> Message(check, CustomTagErrors()) == Some(check.text)
    ensures check.FieldErrors? && check.errors == [] ==> Message(check, CustomTagErrors()) == Some(check.text)
    ensures check.FieldErrors? && check.errors != [] ==>
              var first := check.errors[0];
              var r := Message(check, CustomTagErrors());
              && (first.tag == TagValidPath ==> r == Some(InvalidPathError))
              && (first.tag == TagValidQuery ==> r == Some(InvalidQueryError))
              && (first.tag == TagRequired ==> r == Some(RequiredMessage(first.field)))
              && (first.tag in {TagMin, TagMax} ==> r == Some(RangeMessage(first.field)))
              && (first.tag !in {TagValidPath, TagValidQuery, TagRequired, TagMin, TagMax} ==> r == Some(check.text))
              && r == Message(FieldErrors([first], check.text), CustomTagErrors())
  {
  }

  /** The validator, with the lazily filled table of custom tags and the
      tags registered with the library so far. */
  class Validator {
    var tagErrors: map<string, string>
    var detailsFilled: bool
    var registered: seq<string>

    /** Once filled, the table is the custom-tag table. */
    ghost predicate Valid()
      reads this
    {
      detailsFilled ==> tagErrors == CustomTagErrors()
    }

    constructor ()
      ensures Valid() && !detailsFilled && registered == []
    {
      tagErrors := map[];
      detailsFilled := false;
      registered := [];
    }

    /** getTagValidationDetails: the table is filled on the first call only
        and is the same on every call. */
    method GetTagValidationDetails() returns (m: map<string, string>)
      requires Valid()
      modifies this`tagErrors, this`detailsFilled
      ensures Valid() && detailsFilled
      ensures m == CustomTagErrors() && tagErrors == m
      ensures old(detailsFilled) ==> tagErrors == old(tagErrors)
    {
      if !detailsFilled {
        tagErrors := CustomTagErrors();
        detailsFilled := true;
      }
      m := tagErrors;
    }

    /** registerCustomValidatorsForTags: each custom tag is registered in
        turn; `register` is the library's answer, an error or none. The
        first error stops the loop and is returned. */
    method RegisterCustomValidatorsForTags(register: string -> Option<string>) returns (err: Option<string>)
      requires Valid()
      modifies this
      ensures Valid() && detailsFilled
      ensures err.None? ==>
                && (forall k :: 0 <= k < |CustomTags| ==> register(CustomTags[k]).None?)
                && registered == old(registered) + CustomTags
      ensures err.Some? ==>
                exists k :: 0 <= k < |CustomTags| && err == register(CustomTags[k])
                            && (forall j :: 0 <= j < k ==> register(CustomTags[j]).None?)
                            && registered == old(registered) + CustomTags[..k]
    {
      var table := GetTagValidationDetails();
      var i := 0;
      while i < |CustomTags|
        invariant 0 <= i <= |CustomTags|
        invariant Valid() && detailsFilled
        invariant forall j :: 0 <= j < i ==> register(CustomTags[j]).None?
        invariant registered == old(registered) + CustomTags[..i]
      {
        var e := register(CustomTags[i]);
        if e.Some? {
          return e;
        }
        registered := registered + [CustomTags[i]];
        assert CustomTags[..i + 1] == CustomTags[..i] + [CustomTags[i]];
        i := i + 1;
      }
      assert CustomTags[..i] == CustomTags;
      return None;
    }

    /** Validate: the message of the struct check, from the filled table. */
    method Validate(check: StructCheck) returns (r: Option<string>)
      requires Valid()
      modifies this`tagErrors, this`detailsFilled
      ensures Valid() && (!check.Passed? ==> detailsFilled)
      ensures r == Message(check, CustomTagErrors())
    {
      if check.Passed? {
        return None;
      }
      var table := GetTagValidationDetails();
      r := Message(check, table);
    }
  }

  /** New: a validator with the custom tags registered, or the registration
      error and no validator. */
  method New(register: string -> Option<string>) returns (v: Validator?, err: Option<string>)
    ensures err.None? <==> forall k :: 0 <= k < |CustomTags| ==> register(CustomTags[k]).None?
    ensures err.None? <==> v != null
    ensures v != null ==> fresh(v) && v.Valid() && v.registered == CustomTags
  {
    var created := new Validator();
    err := created.RegisterCustomValidatorsForTags(register);
    if err.Some? {
      return null, err;
    }
    return created, None;
  }

  /** The position of the first ',' in `s`, or |s|. */
  function CommaAt(s: string): (k: nat)
    ensures k <= |s|
    ensures forall i :: 0 <= i < k ==> s[i] != ','
    ensures k < |s| ==> s[k] == ','
  {
    if s == [] || s[0] == ',' then 0 else 1 + CommaAt(s[1..])
  }

  /** useJSONFieldNames on a field whose json tag is `jsonTag`: the text
      before the first comma, with "-" turned into "". */
  function UseJSONFieldNames(jsonTag: string): (name: string)
    ensures name == [] || name == jsonTag[..CommaAt(jsonTag)]
    ensures name == [] <==> jsonTag[..CommaAt(jsonTag)] in {"", "-"}
    ensures forall i :: 0 <= i < |name| ==> name[i] != ','
    ensures HasPrefix(jsonTag, name)
  {
    var first := jsonTag[..CommaAt(jsonTag)];
    if first == "-" then "" else first
  }

  /** How the validator names a field in its errors: the json name, or the
      Go field name when the tag gives none. */
  function ReportedName(jsonTag: string, goName: string): string
  {
    var name := UseJSONFieldNames(jsonTag);
    if name == [] then goName else name
  }

  /** A json tag with no comma that is neither empty nor "-" is the name
      the validator reports. */
  lemma {:induction false} ReportedNameOfPlainTag(jsonTag: string, goName: string)
    requires jsonTag != [] && jsonTag != "-" && ',' !in jsonTag
    ensures ReportedName(jsonTag, goName) == jsonTag
  {
  }

  /** isValidPath, with `pathExists` standing for os.Stat succeeding. */
  function IsValidPath(path: string, pathExists: string -> bool): (r: bool)
    ensures r <==> path == [] || (path[0] == '/' && '\U{0000}' !in path && pathExists(path))
  {
    TrimSpaceEmptyIffBlank(path);
    if |path| == 0 then true
    else if TrimSpace(path) == [] then false
    else if '\U{0000}' in path then false
    else if !HasPrefix(path, "/") then false
    else pathExists(path)
  }

  /** isValidQuery. */
  function IsValidQuery(query: string): (r: bool)
    ensures r <==> !IsBlank(query)
  {
    TrimSpaceEmptyIffBlank(query);
    if |query| == 0 then false
    else if TrimSpace(query) == [] then false
    else true
  }
}
