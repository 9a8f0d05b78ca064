/** The typed errors of the key-value store and the sentinels they match. */
module KvTypes {

  /** The two sentinel error values `ErrNotFound` and `ErrInvalidKey`. */
  datatype Sentinel = ErrNotFound | ErrInvalidKey

  function SentinelText(s: Sentinel): string
  {
    match s
    case ErrNotFound => "key not found"
    case ErrInvalidKey => "invalid key"
  }

  /** Every error the store hands back. `BucketNotFound` and `Failed` are the
      plain `fmt.Errorf` errors; `Failed` carries its text. */
  datatype KvError =
    | InvalidKey(key: string, reason: string)
    | NotFound(key: string)
    | BucketNotFound
    | Failed(text: string)

  const InvalidKeyPrefix: string := "invalid key "
  const NotFoundPrefix: string := "key not found: "

  /** The `Error()` text of each error. */
  function Message(e: KvError): (m: string)
  {
    match e
    case InvalidKey(key, reason) => InvalidKeyPrefix + key + ": " + reason
    case NotFound(key) => NotFoundPrefix + key
    case BucketNotFound => "bucket not found"
    case Failed(text) => text
  }

  /** `errors.Is(e, target)` for the store's errors: only the two typed errors
      define `Is`, and each compares the target with its own sentinel. */
  function Is(e: KvError, target: Sentinel): bool
  {
    match e
    case InvalidKey(_, _) => target == ErrInvalidKey
    case NotFound(_) => target == ErrNotFound
    case _ => false
  }

  /** An invalid-key error matches `ErrInvalidKey` and no other sentinel; a
      not-found error matches `ErrNotFound` and no other. */
  lemma {:induction false} IsMatchesOwnSentinelOnly(e: KvError, target: Sentinel)
    ensures e.InvalidKey? ==> (Is(e, target) <==> target == ErrInvalidKey)
    ensures e.NotFound? ==> (Is(e, target) <==> target == ErrNotFound)
    ensures e.BucketNotFound? || e.Failed? ==> !Is(e, target)
  {
  }

  /** The key of a not-found error can be read back from its text. */
  lemma {:induction false} NotFoundMessageNamesKey(key: string)
    ensures var m := Message(NotFound(key));
            |m| == |NotFoundPrefix| + |key| && m[..|NotFoundPrefix|] == NotFoundPrefix
            && m[|NotFoundPrefix|..] == key
  {
  }

  /** The texts of an invalid-key error and a not-found error never coincide,
      and two not-found errors have the same text only for the same key. */
  lemma {:induction false} MessagesTellErrorsApart(a: string, reason: string, b: string, c: string)
    ensures Message(InvalidKey(a, reason)) != Message(NotFound(b))
    ensures Message(NotFound(b)) == Message(NotFound(c)) ==> b == c
  {
    assert Message(InvalidKey(a, reason))[0] == 'i';
    assert Message(NotFound(b))[0] == 'k';
    if Message(NotFound(b)) == Message(NotFound(c)) {
      assert Message(NotFound(b))[|NotFoundPrefix|..] == b;
      assert Message(NotFound(c))[|NotFoundPrefix|..] == c;
    }
  }
}
